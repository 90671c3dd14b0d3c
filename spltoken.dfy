/** The destination-ledger side of the bridge as the authority nodes use
    it: the address shape check, the signed-message envelope exchanged
    between nodes and the operator, and the decoder that reads a burn of
    wrapped tokens back out of a ledger transaction.

    Signing, signature checking, canonical JSON text and base58 decoding
    live in libraries; they enter here as function parameters about which
    nothing is assumed. */
module SplToken {

  import opened Results
  import Js
  import Decimal

  newtype byte = x: int | 0 <= x < 256

  // ---------------------------------------------------------------------
  // Addresses

  /** `isAddress(a)`: a string whose base58 decoding (`decode`, `None` when
      the text is not base58) is a 32-byte public key. */
  predicate IsAddress(address: Js.Value, decode: string -> Option<seq<byte>>) {
    && address.Str?
    && decode(address.s).Some?
    && |decode(address.s).value| == 32
  }

  // ---------------------------------------------------------------------
  // The signed envelope

  /** `createSignedMessage(data)`: the data, untouched, beside the wallet's
      signature of its JSON text. */
  function CreateSignedMessage(data: Js.Value, stringify: Js.Value -> string, sign: string -> string): (m: Js.Value)
    ensures m.Obj? && m.fields.Keys == {"data", "signature"}
    ensures Js.Get(m, "data") == data
    ensures Js.Get(m, "signature") == Js.Str(sign(stringify(data)))
  {
    Js.Obj(map["data" := data, "signature" := Js.Str(sign(stringify(data)))])
  }

  /** The text `new Error(x)` gives for a thrown non-string value is not
      modelled beyond this. */
  function ErrorText(v: Js.Value): string {
    if v.Str? then v.s else "Error"
  }

  /** `validateSignedMessageStructure(message)`, its four checks in order. */
  function CheckStructure(message: Js.Value): (r: Result<()>)
    ensures !Js.IsSpecified(message) ==> r == Err("Message not specified")
    ensures Js.IsSpecified(message) && Js.IsSpecified(Js.Get(message, "error")) ==>
      r == Err(ErrorText(Js.Get(message, "error")))
    ensures Js.IsSpecified(message) && !Js.IsSpecified(Js.Get(message, "error")) ==>
      && (!Js.IsSpecified(Js.Get(message, "data")) ==> r == Err("Message missing data"))
      && (Js.IsSpecified(Js.Get(message, "data")) && !Js.Get(message, "signature").Str? ==>
            r == Err("Message missing signature"))
    ensures r.Ok? <==> StructureValid(message)
  {
    var _ :- Need(Js.IsSpecified(message), "Message not specified");
    var error := Js.Get(message, "error");
    var _ :- Need(!Js.IsSpecified(error), ErrorText(error));
    var _ :- Need(Js.IsSpecified(Js.Get(message, "data")), "Message missing data");
    Need(Js.Get(message, "signature").Str?, "Message missing signature")
  }

  /** What a message that passes the structure check looks like. */
  predicate StructureValid(message: Js.Value) {
    && Js.IsSpecified(message)
    && !Js.IsSpecified(Js.Get(message, "error"))
    && Js.IsSpecified(Js.Get(message, "data"))
    && Js.Get(message, "signature").Str?
  }

  /** What a validation hands back: the data alone when `discard` is set,
      otherwise the whole message. */
  function Returned(message: Js.Value, discard: bool): Js.Value {
    if discard then Js.Get(message, "data") else message
  }

  /** `validateSignedMessage(message, walletAddress, discard)`: one address,
      no structure check; reading `message.data` of a missing message is a
      TypeError. */
  function ValidateSignedMessage(message: Js.Value, walletAddress: string, discard: bool,
                                 stringify: Js.Value -> string, verify: (string, Js.Value, string) -> bool): (r: Result<Js.Value>)
    ensures r.Ok? <==>
      Js.IsSpecified(message) &&
      verify(stringify(Js.Get(message, "data")), Js.Get(message, "signature"), walletAddress)
    ensures Js.IsSpecified(message) && r.Err? ==> r == Err("Authority verification failed")
    ensures r.Ok? ==> r.value == Returned(message, discard)
  {
    var data :- Js.Field(message, "data");
    var _ :- Need(verify(stringify(data), Js.Get(message, "signature"), walletAddress), "Authority verification failed");
    Ok(Returned(message, discard))
  }

  /** The number of addresses in `addresses` under which `signature` verifies
      for `text`: `addresses.map(x => verify(...) ? 1 : 0).reduce(+, 0)`. */
  function Verifications(text: string, signature: Js.Value, addresses: seq<string>,
                         verify: (string, Js.Value, string) -> bool): nat
    decreases |addresses|
  {
    if |addresses| == 0 then 0
    else (if verify(text, signature, addresses[0]) then 1 else 0) + Verifications(text, signature, addresses[1..], verify)
  }

  /** Exactly one position of `addresses` verifies. */
  predicate ExactlyOneVerifies(text: string, signature: Js.Value, addresses: seq<string>,
                               verify: (string, Js.Value, string) -> bool) {
    exists i :: 0 <= i < |addresses| && verify(text, signature, addresses[i]) &&
      forall j :: 0 <= j < |addresses| && verify(text, signature, addresses[j]) ==> j == i
  }

  lemma {:induction false} VerificationsNone(text: string, signature: Js.Value, addresses: seq<string>,
                                             verify: (string, Js.Value, string) -> bool)
    ensures Verifications(text, signature, addresses, verify) == 0 <==>
      forall i :: 0 <= i < |addresses| ==> !verify(text, signature, addresses[i])
    decreases |addresses|
  {
    if |addresses| > 0 {
      VerificationsNone(text, signature, addresses[1..], verify);
      assert forall i :: 1 <= i < |addresses| ==> addresses[i] == addresses[1..][i - 1];
    }
  }

  /** The count sums to one exactly when a single position verifies. */
  lemma {:induction false} VerificationsOne(text: string, signature: Js.Value, addresses: seq<string>,
                                            verify: (string, Js.Value, string) -> bool)
    ensures Verifications(text, signature, addresses, verify) == 1 <==>
      ExactlyOneVerifies(text, signature, addresses, verify)
    decreases |addresses|
  {
    if |addresses| > 0 {
      var rest := addresses[1..];
      VerificationsOne(text, signature, rest, verify);
      VerificationsNone(text, signature, rest, verify);
      if verify(text, signature, addresses[0]) {
        OneAtHead(text, signature, addresses, verify);
      } else {
        OneAfterHead(text, signature, addresses, verify);
      }
    }
  }

  /** When the first address verifies, it is the only one exactly when no
      later address does. */
  lemma OneAtHead(text: string, signature: Js.Value, addresses: seq<string>, verify: (string, Js.Value, string) -> bool)
    requires |addresses| > 0 && verify(text, signature, addresses[0])
    ensures ExactlyOneVerifies(text, signature, addresses, verify) <==>
      forall k :: 0 <= k < |addresses| - 1 ==> !verify(text, signature, addresses[1..][k])
  {
    var rest := addresses[1..];
    if ExactlyOneVerifies(text, signature, addresses, verify) {
      var i :| 0 <= i < |addresses| && verify(text, signature, addresses[i]) &&
        forall j :: 0 <= j < |addresses| && verify(text, signature, addresses[j]) ==> j == i;
      assert i == 0;
      forall k | 0 <= k < |rest| ensures !verify(text, signature, rest[k]) {
        assert addresses[k + 1] == rest[k];
      }
    }
    if forall k :: 0 <= k < |rest| ==> !verify(text, signature, rest[k]) {
      assert forall j :: 0 < j < |addresses| ==> addresses[j] == rest[j - 1];
    }
  }

  /** When the first address does not verify, exactly one verifies exactly
      when exactly one of the later addresses does. */
  lemma OneAfterHead(text: string, signature: Js.Value, addresses: seq<string>, verify: (string, Js.Value, string) -> bool)
    requires |addresses| > 0 && !verify(text, signature, addresses[0])
    ensures ExactlyOneVerifies(text, signature, addresses, verify) <==>
      ExactlyOneVerifies(text, signature, addresses[1..], verify)
  {
    var rest := addresses[1..];
    if ExactlyOneVerifies(text, signature, rest, verify) {
      var i :| 0 <= i < |rest| && verify(text, signature, rest[i]) &&
        forall j :: 0 <= j < |rest| && verify(text, signature, rest[j]) ==> j == i;
      assert addresses[i + 1] == rest[i];
      forall j | 0 <= j < |addresses| && verify(text, signature, addresses[j]) ensures j == i + 1 {
        assert j > 0;
        assert rest[j - 1] == addresses[j];
      }
    }
    if ExactlyOneVerifies(text, signature, addresses, verify) {
      var i :| 0 <= i < |addresses| && verify(text, signature, addresses[i]) &&
        forall j :: 0 <= j < |addresses| && verify(text, signature, addresses[j]) ==> j == i;
      assert i > 0;
      assert rest[i - 1] == addresses[i];
      forall j | 0 <= j < |rest| && verify(text, signature, rest[j]) ensures j == i - 1 {
        assert addresses[j + 1] == rest[j];
      }
    }
  }

  /** `validateSignedMessageOne(message, walletAddresses, discard)`: the
      structure check, then exactly one of the candidate addresses must
      verify the signature. */
  function ValidateSignedMessageOne(message: Js.Value, walletAddresses: seq<string>, discard: bool,
                                    stringify: Js.Value -> string, verify: (string, Js.Value, string) -> bool): (r: Result<Js.Value>)
    ensures r.Ok? ==> r.value == Returned(message, discard)
  {
    var _ :- CheckStructure(message);
    var count := Verifications(stringify(Js.Get(message, "data")), Js.Get(message, "signature"), walletAddresses, verify);
    var _ :- Need(count == 1, "Authority verification failed");
    Ok(Returned(message, discard))
  }

  /** Acceptance by one of several signers: a well-formed message whose
      signature verifies under exactly one candidate address. Zero and two
      or more matching candidates are both refused. */
  lemma ValidateSignedMessageOneSpec(message: Js.Value, walletAddresses: seq<string>, discard: bool,
                                     stringify: Js.Value -> string, verify: (string, Js.Value, string) -> bool)
    ensures ValidateSignedMessageOne(message, walletAddresses, discard, stringify, verify).Ok? <==>
      StructureValid(message) &&
      ExactlyOneVerifies(stringify(Js.Get(message, "data")), Js.Get(message, "signature"), walletAddresses, verify)
    ensures StructureValid(message) && !ValidateSignedMessageOne(message, walletAddresses, discard, stringify, verify).Ok? ==>
      ValidateSignedMessageOne(message, walletAddresses, discard, stringify, verify) == Err("Authority verification failed")
  {
    VerificationsOne(stringify(Js.Get(message, "data")), Js.Get(message, "signature"), walletAddresses, verify);
  }

  /** A message made by `createSignedMessage` passes `validateSignedMessage`
      under any address whose key accepts the wallet's own signature, and
      hands back the data (or the message). */
  lemma SignedMessageRoundTrip(data: Js.Value, walletAddress: string, discard: bool, stringify: Js.Value -> string,
                               sign: string -> string, verify: (string, Js.Value, string) -> bool)
    requires verify(stringify(data), Js.Str(sign(stringify(data))), walletAddress)
    ensures var m := CreateSignedMessage(data, stringify, sign);
      ValidateSignedMessage(m, walletAddress, discard, stringify, verify) == Ok(if discard then data else m)
  {
  }

  // ---------------------------------------------------------------------
  // Burn decoding

  /** The SPL token program, as `splToken.TOKEN_PROGRAM_ID` names it. */
  const TOKEN_PROGRAM_ID: string := "TokenkegQfeZyiNwAJbNbGKPFXCWuBvf9Ss623VQ5DA"
  /** The memo program. */
  const MEMO_PROGRAM_ID: string := "MemoSq4gqABAXKb96qnH8TysNcWxMyWCqXgDLGmfcHr"
  const BURN_OPCODE: byte := 8

  /** One instruction of a parsed ledger transaction: the index of its
      program among the message's accounts, and its (base58-decoded) data. */
  datatype Instruction = Instruction(programIdIndex: int, data: seq<byte>)

  /** A parsed transaction message: the program ids by account index and
      the instructions. */
  datatype TxMessage = TxMessage(programIds: map<int, string>, instructions: seq<Instruction>)

  /** The burn that `getBurn` reports. */
  datatype Burn = Burn(signature: string, amount: string, destination: string)

  /** The unsigned little-endian value of `bs`. */
  function LittleEndian(bs: seq<byte>): nat
    decreases |bs|
  {
    if |bs| == 0 then 0 else bs[0] as int + 256 * LittleEndian(bs[1..])
  }

  function Pow256(k: nat): (p: nat)
    ensures p >= 1
  {
    if k == 0 then 1 else 256 * Pow256(k - 1)
  }

  const INT64_MIN: int := -0x8000_0000_0000_0000
  const INT64_LIMIT: int := 0x8000_0000_0000_0000
  const UINT64_LIMIT: int := 0x1_0000_0000_0000_0000

  /** `readBigInt64LE()` on eight bytes: two's complement. */
  function ReadBigInt64LE(bs: seq<byte>): int
    requires |bs| == 8
  {
    var u := LittleEndian(bs);
    if u >= INT64_LIMIT then u - UINT64_LIMIT else u
  }

  /** `buffer.toString("ascii")`: each byte with its high bit cleared. */
  function Ascii(bs: seq<byte>): (s: string)
    ensures |s| == |bs|
  {
    seq(|bs|, i requires 0 <= i < |bs| => ((bs[i] as int) % 128) as char)
  }

  /** A missing program index makes `indexToProgramIds.get(i).toBase58()` throw. */
  function ProgramOf(msg: TxMessage, index: int): Result<string> {
    if index in msg.programIds then Ok(msg.programIds[index])
    else Err("TypeError: cannot read property toBase58 of undefined")
  }

  /** `getBurn(signature)` on the transaction the ledger returned for it
      (`None` when it is unknown, so that `tx.transaction` throws). */
  function GetBurn(burnSignature: string, tx: Option<TxMessage>): Result<Burn> {
    if tx.None? then Err("TypeError: cannot read property transaction of null")
    else
      var msg := tx.value;
      var _ :- Need(|msg.instructions| == 2, "Incorrect instruction length");
      var burnProgram :- ProgramOf(msg, msg.instructions[0].programIdIndex);
      var _ :- Need(burnProgram == TOKEN_PROGRAM_ID, "Incorrect program for burn instruction");
      var memoProgram :- ProgramOf(msg, msg.instructions[1].programIdIndex);
      var _ :- Need(memoProgram == MEMO_PROGRAM_ID, "Incorrect program for memo instruction");
      var burnData := msg.instructions[0].data;
      var _ :- Need(|burnData| == 9 && burnData[0] == BURN_OPCODE, "Burn instruction data incorrect");
      var amount := ReadBigInt64LE(burnData[1..]);
      var parts := Js.Split(Ascii(msg.instructions[1].data), '|');
      var _ :- Need(|parts| == 3, "Memo data incorrect");
      Ok(Burn(burnSignature, Decimal.IntToString(amount), parts[1]))
  }

  /** The shape of a transaction that `getBurn` accepts. */
  predicate IsBurnTx(msg: TxMessage) {
    && |msg.instructions| == 2
    && msg.instructions[0].programIdIndex in msg.programIds
    && msg.programIds[msg.instructions[0].programIdIndex] == TOKEN_PROGRAM_ID
    && msg.instructions[1].programIdIndex in msg.programIds
    && msg.programIds[msg.instructions[1].programIdIndex] == MEMO_PROGRAM_ID
    && |msg.instructions[0].data| == 9
    && msg.instructions[0].data[0] == BURN_OPCODE
    && Js.Count(Ascii(msg.instructions[1].data), '|') == 2
  }

  lemma {:induction false} LittleEndianBound(bs: seq<byte>)
    ensures LittleEndian(bs) < Pow256(|bs|)
    decreases |bs|
  {
    if |bs| > 0 {
      LittleEndianBound(bs[1..]);
    }
  }

  /** `getBurn` accepts exactly the two-instruction burn-and-memo
      transactions; the amount it reports is a signed 64-bit integer and
      the destination is the memo's middle field. */
  lemma GetBurnSpec(burnSignature: string, tx: Option<TxMessage>)
    ensures GetBurn(burnSignature, tx).Ok? <==> tx.Some? && IsBurnTx(tx.value)
    ensures GetBurn(burnSignature, tx).Ok? ==>
      var b := GetBurn(burnSignature, tx).value;
      var memo := Js.Split(Ascii(tx.value.instructions[1].data), '|');
      && b.signature == burnSignature
      && b.destination == memo[1]
      && '|' !in b.destination
      && exists amount :: INT64_MIN <= amount < INT64_LIMIT && b.amount == Decimal.IntToString(amount)
  {
    if tx.Some? && IsBurnTx(tx.value) {
      GetBurnOfBurnTx(burnSignature, tx.value);
    } else if tx.Some? && |tx.value.instructions| == 2 {
      Js.SplitLength(Ascii(tx.value.instructions[1].data), '|');
    }
  }

  lemma GetBurnOfBurnTx(burnSignature: string, msg: TxMessage)
    requires IsBurnTx(msg)
    ensures GetBurn(burnSignature, Some(msg)).Ok?
    ensures var b := GetBurn(burnSignature, Some(msg)).value;
      var memo := Js.Split(Ascii(msg.instructions[1].data), '|');
      && b.signature == burnSignature
      && b.destination == memo[1]
      && '|' !in b.destination
      && exists amount :: INT64_MIN <= amount < INT64_LIMIT && b.amount == Decimal.IntToString(amount)
  {
    var memo := Ascii(msg.instructions[1].data);
    Js.SplitLength(memo, '|');
    Js.SplitPiecesFree(memo, '|');
    var burnData := msg.instructions[0].data;
    Int64Range(burnData[1..]);
  }

  /** Eight bytes read as a signed 64-bit integer. */
  lemma Int64Range(bs: seq<byte>)
    requires |bs| == 8
    ensures INT64_MIN <= ReadBigInt64LE(bs) < INT64_LIMIT
  {
    LittleEndianBound(bs);
    assert Pow256(8) == UINT64_LIMIT;
  }

  // --- the encoding side, as a wallet writes a burn

  /** `n` as `k` little-endian bytes. */
  function LittleEndianBytes(n: nat, k: nat): (bs: seq<byte>)
    ensures |bs| == k
  {
    if k == 0 then [] else [(n % 256) as byte] + LittleEndianBytes(n / 256, k - 1)
  }

  lemma {:induction false} LittleEndianBytesValue(n: nat, k: nat)
    requires n < Pow256(k)
    ensures LittleEndian(LittleEndianBytes(n, k)) == n
    decreases k
  {
    if k > 0 {
      LittleEndianBytesValue(n / 256, k - 1);
      assert LittleEndianBytes(n, k)[1..] == LittleEndianBytes(n / 256, k - 1);
    }
  }

  /** A signed 64-bit integer in two's complement, little-endian. */
  function Int64Bytes(x: int): (bs: seq<byte>)
    requires INT64_MIN <= x < INT64_LIMIT
    ensures |bs| == 8
  {
    LittleEndianBytes(if x < 0 then x + UINT64_LIMIT else x, 8)
  }

  lemma Int64RoundTrip(x: int)
    requires INT64_MIN <= x < INT64_LIMIT
    ensures ReadBigInt64LE(Int64Bytes(x)) == x
  {
    assert Pow256(8) == UINT64_LIMIT;
    LittleEndianBytesValue(if x < 0 then x + UINT64_LIMIT else x, 8);
  }

  predicate IsAsciiText(s: string) {
    forall i :: 0 <= i < |s| ==> (s[i] as int) < 128
  }

  function AsciiBytes(s: string): (bs: seq<byte>)
    requires IsAsciiText(s)
    ensures |bs| == |s|
  {
    seq(|s|, i requires 0 <= i < |s| => (s[i] as int) as byte)
  }

  lemma AsciiRoundTrip(s: string)
    requires IsAsciiText(s)
    ensures Ascii(AsciiBytes(s)) == s
  {
    var t := Ascii(AsciiBytes(s));
    forall i | 0 <= i < |s| ensures t[i] == s[i] {
      assert (s[i] as int) % 128 == s[i] as int;
    }
  }

  /** A burn of `amount` with a memo `head|destination|tail`, its two
      programs at account indexes 0 and 1. */
  function BurnTx(amount: int, head: string, destination: string, tail: string): TxMessage
    requires INT64_MIN <= amount < INT64_LIMIT
    requires IsAsciiText(head + "|" + destination + "|" + tail)
  {
    TxMessage(map[0 := TOKEN_PROGRAM_ID, 1 := MEMO_PROGRAM_ID],
              [Instruction(0, [BURN_OPCODE] + Int64Bytes(amount)),
               Instruction(1, AsciiBytes(head + "|" + destination + "|" + tail))])
  }

  /** Decoding a burn written by a wallet gives back its amount and its
      destination. */
  lemma GetBurnRoundTrip(burnSignature: string, amount: int, head: string, destination: string, tail: string)
    requires INT64_MIN <= amount < INT64_LIMIT
    requires IsAsciiText(head + "|" + destination + "|" + tail)
    requires '|' !in head && '|' !in destination && '|' !in tail
    ensures GetBurn(burnSignature, Some(BurnTx(amount, head, destination, tail))) ==
      Ok(Burn(burnSignature, Decimal.IntToString(amount), destination))
  {
    var memo := head + "|" + destination + "|" + tail;
    AsciiRoundTrip(memo);
    Int64RoundTrip(amount);
    var burnData := [BURN_OPCODE] + Int64Bytes(amount);
    assert burnData[1..] == Int64Bytes(amount);
    var parts := [head, destination, tail];
    assert Js.Join(parts, '|') == memo by {
      assert Js.Join(parts[1..], '|') == destination + "|" + tail by {
        assert parts[1..][1..] == [tail];
      }
    }
    Js.SplitJoin(parts, '|');
  }
}
