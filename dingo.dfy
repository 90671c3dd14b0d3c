/** The source-chain client (dingo.js): satoshi conversion, the
    received-by-address and unspent queries built from RPC answers, and the
    check that a raw transaction spends exactly the proposed outputs and
    pays exactly the proposed amounts. The RPC answers are parameters. */
module Dingo {

  import opened Results
  import Js
  import opened Decimal
  import Dicts
  import Sorting

  // ---------------------------------------------------------------------
  // Satoshi conversion (dingo.js:37-49)

  /** `toSatoshi(x)`: a non-empty string of coins, scaled to gwei by the
      Web3 unit conversion and divided by ten (one coin is 10^8 satoshi). */
  function ToSatoshi(x: Js.Value): (r: Result<string>)
    ensures (!x.Str? || x.s == "") ==> r == Err("Expected string input")
  {
    if !x.Str? || x.s == "" then Err("Expected string input")
    else
      var gwei :- DecimalToGwei(x.s);
      Ok(IntToString(TruncDiv(gwei, 10)))
  }

  /** `fromSatoshi(x)`: a non-empty string of satoshi, multiplied by ten and
      printed as coins by the Web3 unit conversion. */
  function FromSatoshi(x: Js.Value): (r: Result<string>)
    ensures (!x.Str? || x.s == "") ==> r == Err("Expected string input")
  {
    if !x.Str? || x.s == "" then Err("Expected string input")
    else
      var n :- ParseBigInt(x.s);
      Ok(GweiToDecimal(n * 10))
  }

  /** `toSatoshi` of a string. */
  function Sat(s: string): Result<string> {
    ToSatoshi(Js.Str(s))
  }

  const COIN: nat := 100_000_000

  lemma WholeCoinsToGwei(n: int)
    ensures DecimalToGwei(IntToString(n)) == Ok(n * GWEI)
  {
    var m := if n < 0 then -n else n;
    var w := NatToString(m);
    NatToStringValue(m);
    DigitsHaveNoPoint(w);
    SplitSingle(w, '.');
    PadRightValue("0", GWEI_DIGITS);
    assert UnsignedToGwei(IntToString(n), w) == Ok(m * GWEI) by {
      assert w != "." by {
        assert IsDigit(w[0]);
      }
    }
    var s := IntToString(n);
    if n < 0 {
      assert s[1..] == w;
    } else {
      assert s == w && s[0] != '-' by {
        assert IsDigit(w[0]);
      }
    }
    assert forall i :: 0 <= i < |w| ==> NumberChar(w[i]);
    assert MatchesNumber(s);
  }

  /** A whole number of coins is that many times 10^8 satoshi. */
  lemma ToSatoshiOfCoins(n: int)
    ensures ToSatoshi(Js.Str(IntToString(n))) == Ok(IntToString(n * COIN))
  {
    WholeCoinsToGwei(n);
    assert IntToString(n) != "" by {
      NatToStringValue(if n < 0 then -n else n);
    }
    assert TruncDiv(n * GWEI, 10) == n * COIN;
  }

  /** `toSatoshi(fromSatoshi(s)) == s` for every integer written in decimal. */
  lemma SatoshiRoundTrip(v: int)
    ensures FromSatoshi(Js.Str(IntToString(v))).Ok?
    ensures ToSatoshi(Js.Str(FromSatoshi(Js.Str(IntToString(v))).value)) == Ok(IntToString(v))
  {
    ParseIntToString(v);
    assert IntToString(v) != "" by {
      NatToStringValue(if v < 0 then -v else v);
    }
    var d := GweiToDecimal(v * 10);
    GweiRoundTrip(v * 10);
    var m := if v * 10 < 0 then -(v * 10) else v * 10;
    FractionDigitsShape(m % GWEI);
    UnsignedDecimalShape(m / GWEI, FractionDigits(m % GWEI));
    assert d != "";
    assert TruncDiv(v * 10, 10) == v;
  }

  // ---------------------------------------------------------------------
  // RPC answers

  /** One entry of `listreceivedbyaddress`, its amount the decimal string the
      RPC layer produces. */
  datatype Received = Received(address: string, amount: string)

  /** One entry of `listunspent`. */
  datatype Utxo = Utxo(txid: string, vout: int, address: string, scriptPubKey: string, amount: string)

  function AddressOf(r: Received): string {
    r.address
  }

  /** The dictionary `listReceivedByAddress` builds: a later entry for the
      same address replaces an earlier one. */
  function ReceivedDict(entries: seq<Received>): Dicts.Dict<Received> {
    Dicts.IndexBy(entries, AddressOf)
  }

  predicate HasEntry(entries: seq<Received>, a: string) {
    exists i :: 0 <= i < |entries| && entries[i].address == a
  }

  /** `entries[i]` is the last entry for address `a`. */
  predicate IsLastFor(entries: seq<Received>, i: int, a: string) {
    && 0 <= i < |entries|
    && entries[i].address == a
    && forall j :: i < j < |entries| ==> entries[j].address != a
  }

  /** Exactly the addresses with an entry are keys. */
  lemma ReceivedDictKeys(entries: seq<Received>)
    ensures ReceivedDict(entries).Valid()
    ensures forall a :: a in ReceivedDict(entries).vals <==> HasEntry(entries, a)
  {
    Dicts.IndexByKeys(entries, AddressOf);
    forall a ensures a in ReceivedDict(entries).vals <==> HasEntry(entries, a) {
      if HasEntry(entries, a) {
        var i :| 0 <= i < |entries| && entries[i].address == a;
        assert AddressOf(entries[i]) == a;
      }
    }
  }

  /** Each key is bound to the last entry for its address. */
  lemma ReceivedDictLast(entries: seq<Received>, a: string)
    requires a in ReceivedDict(entries).vals
    ensures exists i :: IsLastFor(entries, i, a) && entries[i] == ReceivedDict(entries).vals[a]
  {
    Dicts.IndexByLast(entries, AddressOf, a);
    var i :| Dicts.IsLastWithKey(entries, AddressOf, i, a) && entries[i] == ReceivedDict(entries).vals[a];
    assert IsLastFor(entries, i, a);
  }

  /** `listReceivedByAddress`: fills a dictionary keyed by address, one
      entry at a time. */
  method ListReceivedByAddress(entries: seq<Received>) returns (d: Dicts.Dict<Received>)
    ensures d == ReceivedDict(entries)
    ensures d.Valid()
    ensures forall a :: a in d.vals <==> HasEntry(entries, a)
    ensures forall a :: a in d.vals ==> exists i :: IsLastFor(entries, i, a) && entries[i] == d.vals[a]
  {
    d := Dicts.Empty();
    var i := 0;
    while i < |entries|
      invariant 0 <= i <= |entries|
      invariant d == ReceivedDict(entries[..i])
    {
      assert entries[..i + 1][..i] == entries[..i];
      d := Dicts.Put(d, entries[i].address, entries[i]);
      i := i + 1;
    }
    assert entries[..i] == entries;
    ReceivedDictKeys(entries);
    forall a | a in d.vals ensures exists i :: IsLastFor(entries, i, a) && entries[i] == d.vals[a] {
      ReceivedDictLast(entries, a);
    }
  }

  /** What `getReceivedAmountByAddress` answers for one address. */
  function ReceivedAmount(entries: seq<Received>, address: string): Js.Value {
    var d := ReceivedDict(entries);
    if address in d.vals then Js.Str(d.vals[address].amount) else Js.Num(0)
  }

  /** `getReceivedAmountByAddress`: the number 0 for an address that has
      received nothing, else the amount of its entry. */
  method GetReceivedAmountByAddress(entries: seq<Received>, address: string) returns (r: Js.Value)
    ensures r == ReceivedAmount(entries, address)
    ensures r == Js.Num(0) <==> !HasEntry(entries, address)
    ensures r != Js.Num(0) ==> exists i :: IsLastFor(entries, i, address) && r == Js.Str(entries[i].amount)
  {
    var received := ListReceivedByAddress(entries);
    if address !in received.vals {
      r := Js.Num(0);
    } else {
      r := Js.Str(received.vals[address].amount);
    }
  }

  function AmountsDict(entries: seq<Received>, addresses: seq<string>): Dicts.Dict<Js.Value>
    decreases |addresses|
  {
    if |addresses| == 0 then Dicts.Empty()
    else
      var a := addresses[|addresses| - 1];
      Dicts.Put(AmountsDict(entries, addresses[..|addresses| - 1]), a, ReceivedAmount(entries, a))
  }

  lemma AmountsDictSpec(entries: seq<Received>, addresses: seq<string>)
    ensures var d := AmountsDict(entries, addresses);
      && d.Valid()
      && (forall a :: a in d.vals <==> a in addresses)
      && (forall a :: a in d.vals ==> d.vals[a] == ReceivedAmount(entries, a))
  {
    AmountsDictKeys(entries, addresses);
    AmountsDictValues(entries, addresses);
  }

  lemma {:induction false} AmountsDictKeys(entries: seq<Received>, addresses: seq<string>)
    ensures var d := AmountsDict(entries, addresses);
      d.Valid() && forall a :: a in d.vals <==> a in addresses
    decreases |addresses|
  {
    if |addresses| == 0 {
      Dicts.EmptyValid<Js.Value>();
    } else {
      var n := |addresses| - 1;
      AmountsDictKeys(entries, addresses[..n]);
      var a := addresses[n];
      var prev := AmountsDict(entries, addresses[..n]);
      var v := ReceivedAmount(entries, a);
      assert AmountsDict(entries, addresses) == Dicts.Put(prev, a, v);
      Dicts.PutValid(prev, a, v);
      assert addresses == addresses[..n] + [a];
    }
  }

  lemma {:induction false} AmountsDictValues(entries: seq<Received>, addresses: seq<string>)
    ensures var d := AmountsDict(entries, addresses);
      forall a :: a in d.vals ==> d.vals[a] == ReceivedAmount(entries, a)
    decreases |addresses|
  {
    if |addresses| > 0 {
      var n := |addresses| - 1;
      AmountsDictValues(entries, addresses[..n]);
      var a := addresses[n];
      var prev := AmountsDict(entries, addresses[..n]);
      var v := ReceivedAmount(entries, a);
      assert AmountsDict(entries, addresses) == Dicts.Put(prev, a, v);
      assert AmountsDict(entries, addresses).vals == prev.vals[a := v];
    }
  }

  /** `getReceivedAmountByAddresses`: exactly the requested addresses are
      keys, each bound to what the single-address query answers. */
  method GetReceivedAmountByAddresses(entries: seq<Received>, addresses: seq<string>)
    returns (d: Dicts.Dict<Js.Value>)
    ensures d == AmountsDict(entries, addresses)
    ensures d.Valid()
    ensures forall a :: a in d.vals <==> a in addresses
    ensures forall a :: a in d.vals ==> d.vals[a] == ReceivedAmount(entries, a)
  {
    var received := ListReceivedByAddress(entries);
    d := Dicts.Empty();
    var i := 0;
    while i < |addresses|
      invariant 0 <= i <= |addresses|
      invariant d == AmountsDict(entries, addresses[..i])
    {
      var a := addresses[i];
      assert addresses[..i + 1][..i] == addresses[..i];
      if a !in received.vals {
        d := Dicts.Put(d, a, Js.Num(0));
      } else {
        d := Dicts.Put(d, a, Js.Str(received.vals[a].amount));
      }
      i := i + 1;
    }
    assert addresses[..i] == addresses;
    AmountsDictSpec(entries, addresses);
  }

  /** `listUnspent`: a null, undefined or empty address list answers the
      empty list without asking the node; `rpc` is the node's answer. */
  function ListUnspent(addresses: Option<seq<string>>, rpc: seq<string> -> seq<Utxo>): (r: seq<Utxo>)
    ensures (addresses.None? || |addresses.value| == 0) ==> r == []
    ensures addresses.Some? && |addresses.value| > 0 ==> r == rpc(addresses.value)
  {
    if addresses.None? || |addresses.value| == 0 then [] else rpc(addresses.value)
  }

  lemma ListUnspentAsksNothing(addresses: Option<seq<string>>, rpc1: seq<string> -> seq<Utxo>, rpc2: seq<string> -> seq<Utxo>)
    requires addresses.None? || |addresses.value| == 0
    ensures ListUnspent(addresses, rpc1) == ListUnspent(addresses, rpc2) == []
  {
  }

  // ---------------------------------------------------------------------
  // Raw transaction check (dingo.js:186-218)

  /** An input of a decoded transaction: the output it spends. */
  datatype Outpoint = Outpoint(txid: string, vout: int)

  /** An output of a decoded transaction. */
  datatype TxOut = TxOut(scriptType: string, addresses: seq<string>, value: string)

  /** The answer of `decoderawtransaction`. */
  datatype DecodedTx = DecodedTx(vin: seq<Outpoint>, vout: seq<TxOut>)

  function UtxoOutpoint(u: Utxo): Outpoint {
    Outpoint(u.txid, u.vout)
  }

  /** The sort key `x.txid + x.vout.toString()`. */
  function OutpointKey(o: Outpoint): string {
    o.txid + IntToString(o.vout)
  }

  function UtxoKey(u: Utxo): string {
    u.txid + IntToString(u.vout)
  }

  /** The input half: as many inputs as proposed outputs, and the same
      `[txid, vout]` lists once both sides are sorted by key. */
  function CheckVins(unspent: seq<Utxo>, vin: seq<Outpoint>): Result<()> {
    if |vin| != |unspent| then Err("Unspent mismatch")
    else if Sorting.MapSeq(UtxoOutpoint, Sorting.SortBy(unspent, UtxoKey)) != Sorting.SortBy(vin, OutpointKey)
    then Err("Unspent mismatch")
    else Ok(())
  }

  lemma OutpointKeyInjective(a: Outpoint, b: Outpoint)
    requires |a.txid| == |b.txid|
    requires OutpointKey(a) == OutpointKey(b)
    ensures a == b
  {
    var k := OutpointKey(a);
    assert a.txid == k[..|a.txid|] == b.txid;
    assert IntToString(a.vout) == k[|a.txid|..] == IntToString(b.vout);
    IntToStringInjective(a.vout, b.vout);
  }

  /** With transaction ids of one fixed length, the input half passes
      exactly when both sides spend the same outputs, in any order. */
  lemma CheckVinsOrderFree(unspent: seq<Utxo>, vin: seq<Outpoint>, idLength: nat)
    requires forall u :: u in unspent ==> |u.txid| == idLength
    requires forall o :: o in vin ==> |o.txid| == idLength
    ensures CheckVins(unspent, vin).Ok? <==>
      multiset(Sorting.MapSeq(UtxoOutpoint, unspent)) == multiset(vin)
  {
    var proposed := Sorting.MapSeq(UtxoOutpoint, unspent);
    Sorting.SortByMap(unspent, UtxoOutpoint, UtxoKey, OutpointKey);
    var sp := Sorting.SortBy(proposed, OutpointKey);
    var sv := Sorting.SortBy(vin, OutpointKey);
    Sorting.SortByCorrect(proposed, OutpointKey);
    Sorting.SortByCorrect(vin, OutpointKey);
    if multiset(proposed) == multiset(vin) {
      assert |proposed| == |multiset(proposed)| == |multiset(vin)| == |vin|;
      ProposedKeysDistinct(unspent, idLength);
      Sorting.SortedUnique(sp, sv, OutpointKey);
    }
  }

  /** Outpoints with ids of one length have distinct sort keys. */
  lemma ProposedKeysDistinct(unspent: seq<Utxo>, idLength: nat)
    requires forall u :: u in unspent ==> |u.txid| == idLength
    ensures var sp := Sorting.SortBy(Sorting.MapSeq(UtxoOutpoint, unspent), OutpointKey);
      forall a, b :: a in sp && b in sp && OutpointKey(a) == OutpointKey(b) ==> a == b
  {
    var proposed := Sorting.MapSeq(UtxoOutpoint, unspent);
    var sp := Sorting.SortBy(proposed, OutpointKey);
    Sorting.SortByMembers(proposed, OutpointKey);
    forall a, b | a in sp && b in sp && OutpointKey(a) == OutpointKey(b) ensures a == b {
      var i :| 0 <= i < |proposed| && proposed[i] == a;
      var j :| 0 <= j < |proposed| && proposed[j] == b;
      assert a == UtxoOutpoint(unspent[i]) && b == UtxoOutpoint(unspent[j]);
      assert unspent[i] in unspent && unspent[j] in unspent;
      OutpointKeyInjective(a, b);
    }
  }

  /** With ids of different lengths two distinct outputs can share a sort
      key, and then the order of the proposal decides the outcome. */
  lemma CheckVinsKeyCollision()
    ensures OutpointKey(Outpoint("a", 12)) == OutpointKey(Outpoint("a1", 2))
    ensures CheckVins([Utxo("a", 12, "", "", "1"), Utxo("a1", 2, "", "", "1")],
                      [Outpoint("a1", 2), Outpoint("a", 12)]).Err?
  {
    assert IntToString(12) == "12" by {
      assert NatToString(12) == NatToString(1) + [DigitChar(2)];
    }
    assert IntToString(2) == "2";
    var u := [Utxo("a", 12, "", "", "1"), Utxo("a1", 2, "", "", "1")];
    assert UtxoKey(u[0]) == "a12" && UtxoKey(u[1]) == "a12";
    Sorting.StrLtIrreflexive("a12");
    assert Sorting.SortBy(u, UtxoKey) == u by {
      assert u[..1] == [u[0]];
      assert Sorting.SortBy(u[..1], UtxoKey) == Sorting.Insert(u[0], [], UtxoKey) == [u[0]];
      assert Sorting.Insert(u[1], [u[0]], UtxoKey) == [u[0]] + Sorting.Insert(u[1], [], UtxoKey);
    }
    var v := [Outpoint("a1", 2), Outpoint("a", 12)];
    assert OutpointKey(v[0]) == "a12" && OutpointKey(v[1]) == "a12";
    assert Sorting.SortBy(v, OutpointKey) == v by {
      assert v[..1] == [v[0]];
      assert Sorting.SortBy(v[..1], OutpointKey) == Sorting.Insert(v[0], [], OutpointKey) == [v[0]];
      assert Sorting.Insert(v[1], [v[0]], OutpointKey) == [v[0]] + Sorting.Insert(v[1], [], OutpointKey);
    }
    assert Sorting.MapSeq(UtxoOutpoint, u)[0] == Outpoint("a", 12);
  }

  predicate IsStandard(o: TxOut) {
    (o.scriptType == "scripthash" || o.scriptType == "pubkeyhash") && |o.addresses| == 1
  }

  function Address(o: TxOut): string {
    if |o.addresses| > 0 then o.addresses[0] else ""
  }

  /** `[address, value]` of every single-address scripthash or pubkeyhash
      output, in transaction order. */
  function StandardPairs(outs: seq<TxOut>): seq<(string, string)>
    decreases |outs|
  {
    if |outs| == 0 then []
    else (if IsStandard(outs[0]) then [(Address(outs[0]), outs[0].value)] else []) + StandardPairs(outs[1..])
  }

  /** `new Map(pairs)`: a later pair for the same key replaces an earlier one. */
  function PairsToMap(ps: seq<(string, string)>): map<string, string>
    decreases |ps|
  {
    if |ps| == 0 then map[] else PairsToMap(ps[..|ps| - 1])[ps[|ps| - 1].0 := ps[|ps| - 1].1]
  }

  function PayoutPair(payouts: Dicts.Dict<string>): string -> (string, string) {
    k => (k, if k in payouts.vals then payouts.vals[k] else "")
  }

  function Fst(p: (string, string)): string {
    p.0
  }

  function Identity(k: string): string {
    k
  }

  /** `sort(Object.keys(payouts)).asc().map((x) => [x, payouts[x]])` */
  function ProposedPairs(payouts: Dicts.Dict<string>): seq<(string, string)> {
    Sorting.MapSeq(PayoutPair(payouts), Sorting.SortBy(payouts.keys, Identity))
  }

  /** `m.has(p[0]) && toSatoshi(m.get(p[0])) === toSatoshi(p[1])` */
  predicate PairMatches(p: (string, string), m: map<string, string>) {
    && p.0 in m
    && Sat(m[p.0]).Ok? && Sat(p.1).Ok?
    && Sat(m[p.0]).value == Sat(p.1).value
  }

  /** `pairs.every(p => m.has(p[0]) && toSatoshi(m.get(p[0])) === toSatoshi(p[1]))`,
      where a conversion that throws ends the check with its error. */
  function EveryMatches(pairs: seq<(string, string)>, m: map<string, string>): Result<bool>
    decreases |pairs|
  {
    if |pairs| == 0 then Ok(true)
    else if pairs[0].0 !in m then Ok(false)
    else
      var a :- Sat(m[pairs[0].0]);
      var b :- Sat(pairs[0].1);
      if a != b then Ok(false) else EveryMatches(pairs[1..], m)
  }

  lemma {:induction false} EveryMatchesSpec(pairs: seq<(string, string)>, m: map<string, string>)
    ensures EveryMatches(pairs, m) == Ok(true) <==> forall i :: 0 <= i < |pairs| ==> PairMatches(pairs[i], m)
    decreases |pairs|
  {
    if |pairs| > 0 {
      EveryMatchesSpec(pairs[1..], m);
      if PairMatches(pairs[0], m) {
        assert forall i :: 1 <= i < |pairs| ==> pairs[i] == pairs[1..][i - 1];
      }
    }
  }

  /** The output half: as many outputs as payees, then every standard
      output pays a payee its amount and every payee is paid its amount. */
  function CheckVouts(payouts: Dicts.Dict<string>, outs: seq<TxOut>): Result<()> {
    if |outs| != |payouts.keys| then Err("Payouts mismatch")
    else
      var proposed := ProposedPairs(payouts);
      var txPairs := TxPairs(outs);
      var everyTx :- EveryMatches(txPairs, PairsToMap(proposed));
      if !everyTx then Err("Payouts mistmatch in content")
      else
        var everyProposed :- EveryMatches(proposed, PairsToMap(txPairs));
        if !everyProposed then Err("Payouts mistmatch in content")
        else Ok(())
  }

  /** `verifyRawTransaction(unspent, payouts, hex)` on the decoded `tx`. */
  function VerifyRawTransaction(unspent: seq<Utxo>, payouts: Dicts.Dict<string>, tx: DecodedTx): Result<()> {
    var _ :- CheckVins(unspent, tx.vin);
    CheckVouts(payouts, tx.vout)
  }

  // ---------------------------------------------------------------------
  // What the output half checks

  function OutPair(o: TxOut): (string, string) {
    (Address(o), o.value)
  }

  /** The outputs pay the payees one to one: every output is a standard
      single-address output, no address is paid twice, each output pays a
      payee the amount proposed for it, and every payee is paid. */
  predicate PayoutsMatch(payouts: Dicts.Dict<string>, outs: seq<TxOut>) {
    && |outs| == |payouts.keys|
    && (forall i :: 0 <= i < |outs| ==> IsStandard(outs[i]))
    && (forall i, j :: 0 <= i < j < |outs| ==> Address(outs[i]) != Address(outs[j]))
    && (forall i :: 0 <= i < |outs| ==> PairMatches(OutPair(outs[i]), payouts.vals))
    && (forall k :: k in payouts.vals ==> exists i :: 0 <= i < |outs| && Address(outs[i]) == k)
  }

  lemma {:induction false} PairsToMapSpec(ps: seq<(string, string)>)
    ensures forall a :: a in PairsToMap(ps) <==> exists i :: 0 <= i < |ps| && ps[i].0 == a
    ensures forall a :: a in PairsToMap(ps) ==> (a, PairsToMap(ps)[a]) in ps
    decreases |ps|
  {
    if |ps| > 0 {
      var n := |ps| - 1;
      PairsToMapSpec(ps[..n]);
      forall a | exists i :: 0 <= i < |ps| && ps[i].0 == a
        ensures a in PairsToMap(ps)
      {
        var i :| 0 <= i < |ps| && ps[i].0 == a;
        if i < n {
          assert ps[..n][i].0 == a;
        }
      }
      forall a | a in PairsToMap(ps) && a != ps[n].0
        ensures (exists i :: 0 <= i < |ps| && ps[i].0 == a) && (a, PairsToMap(ps)[a]) in ps
      {
        assert PairsToMap(ps) == PairsToMap(ps[..n])[ps[n].0 := ps[n].1];
        assert a in PairsToMap(ps[..n]);
        var i :| 0 <= i < n && ps[..n][i].0 == a;
        assert ps[i].0 == a;
        assert (a, PairsToMap(ps[..n])[a]) in ps[..n];
      }
    }
  }

  lemma {:induction false} PairsOfKeysToMap(payouts: Dicts.Dict<string>, ks: seq<string>)
    requires forall k :: k in ks ==> k in payouts.vals
    ensures var m := PairsToMap(Sorting.MapSeq(PayoutPair(payouts), ks));
      && (forall k :: k in m <==> k in ks)
      && (forall k :: k in m ==> m[k] == payouts.vals[k])
    decreases |ks|
  {
    if |ks| > 0 {
      var n := |ks| - 1;
      PairsOfKeysToMap(payouts, ks[..n]);
      assert Sorting.MapSeq(PayoutPair(payouts), ks)[..n] == Sorting.MapSeq(PayoutPair(payouts), ks[..n]);
      assert ks == ks[..n] + [ks[n]];
    }
  }

  /** The proposed pairs are the payout dictionary itself. */
  lemma ProposedPairsSpec(payouts: Dicts.Dict<string>)
    requires payouts.Valid()
    ensures PairsToMap(ProposedPairs(payouts)) == payouts.vals
    ensures forall p :: p in ProposedPairs(payouts) ==> p.0 in payouts.vals && p.1 == payouts.vals[p.0]
    ensures forall k :: k in payouts.vals ==> (k, payouts.vals[k]) in ProposedPairs(payouts)
  {
    var sorted := Sorting.SortBy(payouts.keys, Identity);
    Sorting.SortByMembers(payouts.keys, Identity);
    assert forall k :: k in sorted <==> k in payouts.vals;
    PairsOfKeysToMap(payouts, sorted);
    var pp := ProposedPairs(payouts);
    assert |pp| == |sorted|;
    forall k | k in payouts.vals ensures (k, payouts.vals[k]) in pp {
      var i :| 0 <= i < |sorted| && sorted[i] == k;
      assert pp[i] == (k, payouts.vals[k]);
    }
  }

  lemma {:induction false} StandardPairsSpec(outs: seq<TxOut>)
    ensures |StandardPairs(outs)| <= |outs|
    ensures |StandardPairs(outs)| == |outs| ==> forall i :: 0 <= i < |outs| ==> IsStandard(outs[i])
    ensures (forall i :: 0 <= i < |outs| ==> IsStandard(outs[i])) ==>
      StandardPairs(outs) == Sorting.MapSeq(OutPair, outs)
    decreases |outs|
  {
    if |outs| > 0 {
      StandardPairsSpec(outs[1..]);
      assert forall i :: 1 <= i < |outs| ==> outs[i] == outs[1..][i - 1];
      if forall i :: 0 <= i < |outs| ==> IsStandard(outs[i]) {
        assert Sorting.MapSeq(OutPair, outs) == [OutPair(outs[0])] + Sorting.MapSeq(OutPair, outs[1..]);
      }
    }
  }

  function ElemSet(s: seq<string>): set<string> {
    set x | x in s
  }

  lemma {:induction false} ElemSetSize(s: seq<string>)
    ensures |ElemSet(s)| <= |s|
    ensures |ElemSet(s)| == |s| <==> forall i, j :: 0 <= i < j < |s| ==> s[i] != s[j]
    decreases |s|
  {
    if |s| > 0 {
      var n := |s| - 1;
      var init := s[..n];
      ElemSetSize(init);
      assert ElemSet(s) == ElemSet(init) + {s[n]};
      if s[n] in init {
        assert ElemSet(s) == ElemSet(init);
        var k :| 0 <= k < n && init[k] == s[n];
        assert s[k] == s[n];
      } else {
        assert forall i :: 0 <= i < n ==> s[i] == init[i];
      }
    }
  }

  lemma SubsetSize(a: set<string>, b: set<string>)
    requires a <= b
    ensures |a| <= |b|
  {
    assert b == a + (b - a);
    assert a * (b - a) == {};
  }

  lemma PayeesCovered(payouts: Dicts.Dict<string>, outs: seq<TxOut>)
    requires payouts.Valid() && |outs| == |payouts.keys|
    requires forall k :: k in payouts.vals ==> k in ElemSet(Sorting.MapSeq(Fst, StandardPairs(outs)))
    ensures forall i :: 0 <= i < |outs| ==> IsStandard(outs[i])
    ensures forall i, j :: 0 <= i < j < |outs| ==> Address(outs[i]) != Address(outs[j])
  {
    var sp := StandardPairs(outs);
    var fsts := Sorting.MapSeq(Fst, sp);
    StandardPairsSpec(outs);
    ElemSetSize(payouts.keys);
    ElemSetSize(fsts);
    assert ElemSet(payouts.keys) <= ElemSet(fsts);
    SubsetSize(ElemSet(payouts.keys), ElemSet(fsts));
    var addrs := Sorting.MapSeq(Address, outs);
    assert fsts == addrs;
  }

  /** The two `every` checks of the output half, once the count agrees. */
  lemma CheckVoutsSteps(payouts: Dicts.Dict<string>, outs: seq<TxOut>)
    requires payouts.Valid()
    ensures CheckVouts(payouts, outs).Ok? <==>
        && |outs| == |payouts.keys|
        && EveryTxPairMatches(payouts, outs)
        && EveryProposedPairMatches(payouts, outs)
  {
    var txPairs := TxPairs(outs);
    ProposedPairsSpec(payouts);
    EveryMatchesSpec(txPairs, payouts.vals);
    EveryMatchesSpec(ProposedPairs(payouts), PairsToMap(txPairs));
  }

  predicate EveryTxPairMatches(payouts: Dicts.Dict<string>, outs: seq<TxOut>) {
    var txPairs := TxPairs(outs);
    forall i :: 0 <= i < |txPairs| ==> PairMatches(txPairs[i], payouts.vals)
  }

  predicate EveryProposedPairMatches(payouts: Dicts.Dict<string>, outs: seq<TxOut>) {
    var proposed := ProposedPairs(payouts);
    forall i :: 0 <= i < |proposed| ==> PairMatches(proposed[i], PairsToMap(TxPairs(outs)))
  }

  lemma KeysCovered(payouts: Dicts.Dict<string>, outs: seq<TxOut>)
    requires payouts.Valid()
    requires EveryProposedPairMatches(payouts, outs)
    ensures forall k :: k in payouts.vals ==> k in ElemSet(Sorting.MapSeq(Fst, StandardPairs(outs)))
  {
    var proposed := ProposedPairs(payouts);
    var sp := StandardPairs(outs);
    var txPairs := Sorting.SortBy(sp, Fst);
    ProposedPairsSpec(payouts);
    forall k | k in payouts.vals ensures k in ElemSet(Sorting.MapSeq(Fst, sp)) {
      var i :| 0 <= i < |proposed| && proposed[i] == (k, payouts.vals[k]);
      assert PairMatches(proposed[i], PairsToMap(txPairs));
      SortedKeyPresent(sp, k);
    }
  }

  /** A key of the map built from the sorted pairs is the key of one of
      the pairs. */
  lemma SortedKeyPresent(sp: seq<(string, string)>, k: string)
    requires k in PairsToMap(Sorting.SortBy(sp, Fst))
    ensures k in ElemSet(Sorting.MapSeq(Fst, sp))
  {
    var txPairs := Sorting.SortBy(sp, Fst);
    PairsToMapSpec(txPairs);
    Sorting.SortByMembers(sp, Fst);
    var t :| 0 <= t < |txPairs| && txPairs[t].0 == k;
    assert txPairs[t] in sp;
    var j :| 0 <= j < |sp| && sp[j] == txPairs[t];
    var fsts := Sorting.MapSeq(Fst, sp);
    assert fsts[j] == Fst(sp[j]) == k;
    assert k in fsts;
  }

  function TxPairs(outs: seq<TxOut>): seq<(string, string)> {
    Sorting.SortBy(StandardPairs(outs), Fst)
  }

  /** With every output standard, a pair is among the sorted transaction
      pairs exactly when some output pays it. */
  lemma TxPairsMember(outs: seq<TxOut>, p: (string, string))
    requires forall i :: 0 <= i < |outs| ==> IsStandard(outs[i])
    ensures p in TxPairs(outs) <==> p in Sorting.MapSeq(OutPair, outs)
  {
    var sp := StandardPairs(outs);
    StandardPairsSpec(outs);
    Sorting.SortByMembers(sp, Fst);
  }

  lemma CheckVoutsSound(payouts: Dicts.Dict<string>, outs: seq<TxOut>)
    requires payouts.Valid()
    requires CheckVouts(payouts, outs).Ok?
    ensures PayoutsMatch(payouts, outs)
  {
    CheckVoutsSteps(payouts, outs);
    KeysCovered(payouts, outs);
    PayeesCovered(payouts, outs);
    OutPairsMatch(payouts, outs);
    PayeesPresent(payouts, outs);
  }

  lemma OutPairsMatch(payouts: Dicts.Dict<string>, outs: seq<TxOut>)
    requires forall i :: 0 <= i < |outs| ==> IsStandard(outs[i])
    requires EveryTxPairMatches(payouts, outs)
    ensures forall i :: 0 <= i < |outs| ==> PairMatches(OutPair(outs[i]), payouts.vals)
  {
    var sp := Sorting.MapSeq(OutPair, outs);
    forall i | 0 <= i < |outs| ensures PairMatches(OutPair(outs[i]), payouts.vals) {
      TxPairsMember(outs, sp[i]);
      assert sp[i] in TxPairs(outs);
    }
  }

  lemma PayeesPresent(payouts: Dicts.Dict<string>, outs: seq<TxOut>)
    requires forall i :: 0 <= i < |outs| ==> IsStandard(outs[i])
    requires forall k :: k in payouts.vals ==> k in ElemSet(Sorting.MapSeq(Fst, StandardPairs(outs)))
    ensures forall k :: k in payouts.vals ==> exists i :: 0 <= i < |outs| && Address(outs[i]) == k
  {
    StandardPairsSpec(outs);
    var sp := StandardPairs(outs);
    assert sp == Sorting.MapSeq(OutPair, outs);
    var fsts := Sorting.MapSeq(Fst, sp);
    forall k | k in payouts.vals ensures exists i :: 0 <= i < |outs| && Address(outs[i]) == k {
      assert k in ElemSet(fsts);
      var j :| 0 <= j < |fsts| && fsts[j] == k;
      assert fsts[j] == Fst(sp[j]) && sp[j] == OutPair(outs[j]);
    }
  }

  lemma TxPairsPaid(payouts: Dicts.Dict<string>, outs: seq<TxOut>)
    requires PayoutsMatch(payouts, outs)
    ensures EveryTxPairMatches(payouts, outs)
  {
    var sp := Sorting.MapSeq(OutPair, outs);
    var txPairs := TxPairs(outs);
    forall i | 0 <= i < |txPairs| ensures PairMatches(txPairs[i], payouts.vals) {
      TxPairsMember(outs, txPairs[i]);
      assert txPairs[i] in sp;
      var l :| 0 <= l < |sp| && sp[l] == txPairs[i];
      assert PairMatches(OutPair(outs[l]), payouts.vals);
    }
  }

  /** A payee's output is found among the transaction's pairs, paying the
      proposed amount. */
  lemma PayeePaid(payouts: Dicts.Dict<string>, outs: seq<TxOut>, k: string)
    requires PayoutsMatch(payouts, outs)
    requires k in payouts.vals
    ensures var tm := PairsToMap(TxPairs(outs));
      k in tm && Sat(tm[k]).Ok? && Sat(tm[k]) == Sat(payouts.vals[k])
  {
    PayeeListed(payouts, outs, k);
    PayeeAmount(payouts, outs, k);
  }

  lemma PayeeListed(payouts: Dicts.Dict<string>, outs: seq<TxOut>, k: string)
    requires PayoutsMatch(payouts, outs)
    requires k in payouts.vals
    ensures k in PairsToMap(TxPairs(outs))
  {
    var sp := Sorting.MapSeq(OutPair, outs);
    var txPairs := TxPairs(outs);
    PairsToMapSpec(txPairs);
    var j :| 0 <= j < |outs| && Address(outs[j]) == k;
    TxPairsMember(outs, sp[j]);
    assert sp[j] in txPairs;
    var t :| 0 <= t < |txPairs| && txPairs[t] == sp[j];
    assert txPairs[t].0 == k;
  }

  lemma PayeeAmount(payouts: Dicts.Dict<string>, outs: seq<TxOut>, k: string)
    requires PayoutsMatch(payouts, outs)
    requires k in PairsToMap(TxPairs(outs))
    ensures var tm := PairsToMap(TxPairs(outs));
      k in payouts.vals && Sat(tm[k]).Ok? && Sat(tm[k]) == Sat(payouts.vals[k])
  {
    var sp := Sorting.MapSeq(OutPair, outs);
    var tm := PairsToMap(TxPairs(outs));
    PairsToMapSpec(TxPairs(outs));
    assert (k, tm[k]) in TxPairs(outs);
    TxPairsMember(outs, (k, tm[k]));
    assert (k, tm[k]) in sp;
    var l :| 0 <= l < |sp| && sp[l] == (k, tm[k]);
    assert PairMatches(OutPair(outs[l]), payouts.vals);
  }

  lemma ProposedPairsPaid(payouts: Dicts.Dict<string>, outs: seq<TxOut>)
    requires payouts.Valid()
    requires PayoutsMatch(payouts, outs)
    ensures EveryProposedPairMatches(payouts, outs)
  {
    var proposed := ProposedPairs(payouts);
    ProposedPairsSpec(payouts);
    var tm := PairsToMap(TxPairs(outs));
    forall i | 0 <= i < |proposed| ensures PairMatches(proposed[i], tm) {
      assert proposed[i] in proposed;
      PayeePaid(payouts, outs, proposed[i].0);
    }
  }

  lemma CheckVoutsComplete(payouts: Dicts.Dict<string>, outs: seq<TxOut>)
    requires payouts.Valid()
    requires PayoutsMatch(payouts, outs)
    ensures CheckVouts(payouts, outs).Ok?
  {
    CheckVoutsSteps(payouts, outs);
    TxPairsPaid(payouts, outs);
    ProposedPairsPaid(payouts, outs);
  }

  /** The output half passes exactly when the outputs pay the payees one
      to one with the proposed amounts. */
  lemma CheckVoutsSpec(payouts: Dicts.Dict<string>, outs: seq<TxOut>)
    requires payouts.Valid()
    ensures CheckVouts(payouts, outs).Ok? <==> PayoutsMatch(payouts, outs)
  {
    if CheckVouts(payouts, outs).Ok? {
      CheckVoutsSound(payouts, outs);
    }
    if PayoutsMatch(payouts, outs) {
      CheckVoutsComplete(payouts, outs);
    }
  }

  /** With transaction ids of one fixed length, `verifyRawTransaction`
      passes exactly when the transaction spends the proposed outputs, in
      any order, and pays the payees one to one; the inputs are checked
      first, so an input mismatch is reported as such. */
  lemma VerifyRawTransactionSpec(unspent: seq<Utxo>, payouts: Dicts.Dict<string>, tx: DecodedTx, idLength: nat)
    requires payouts.Valid()
    requires forall u :: u in unspent ==> |u.txid| == idLength
    requires forall o :: o in tx.vin ==> |o.txid| == idLength
    ensures VerifyRawTransaction(unspent, payouts, tx).Ok? <==>
      && multiset(Sorting.MapSeq(UtxoOutpoint, unspent)) == multiset(tx.vin)
      && PayoutsMatch(payouts, tx.vout)
    ensures CheckVins(unspent, tx.vin).Err? ==> VerifyRawTransaction(unspent, payouts, tx) == Err("Unspent mismatch")
  {
    CheckVinsOrderFree(unspent, tx.vin, idLength);
    CheckVoutsSpec(payouts, tx.vout);
  }
}
