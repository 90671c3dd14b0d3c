/** The freshness anchor that authority nodes and the operator put inside
    every signed message: the source-chain height `syncDelayThreshold`
    blocks below the tip, and that block's hash. A receiver refuses a
    message whose anchor is more than one further delay old, or whose hash
    is not the one its own node reports for that height. The same code
    appears in the node (authorityDaemon.js) and in the operator's console
    (cli.js); it is defined once here.

    The chain is seen through `blocks` (the tip height that
    `getBlockchainInfo` reports) and `hashOf` (`getBlockHash`, which can
    fail). */
module TimedMessage {

  import opened Results
  import Js
  import SplToken

  const HEIGHT_FIELD: string := "valDingoHeight"
  const HASH_FIELD: string := "valDingoHash"

  /** `createTimedAndSignedMessage(x)`: stamp the object with the anchor and
      sign it. */
  function CreateTimed(x: Js.Value, blocks: int, syncDelay: int, hashOf: int -> Result<string>,
                       stringify: Js.Value -> string, sign: string -> string): (r: Result<Js.Value>)
    ensures !Js.IsObject(x) ==> r == Err("Cannot sign non-object " + stringify(x))
    ensures Js.IsObject(x) && hashOf(blocks - syncDelay).Err? ==> r == Err(hashOf(blocks - syncDelay).error)
    ensures r.Ok? ==>
      var data := Js.Get(r.value, "data");
      && Js.IsObject(data)
      && data.fields == x.fields[HEIGHT_FIELD := Js.Num(blocks - syncDelay)][HASH_FIELD := Js.Str(hashOf(blocks - syncDelay).value)]
      && Js.Get(r.value, "signature") == Js.Str(sign(stringify(data)))
  {
    if !Js.IsObject(x) then Err("Cannot sign non-object " + stringify(x))
    else
      var height := blocks - syncDelay;
      var hash :- hashOf(height);
      var data := Js.Obj(x.fields[HEIGHT_FIELD := Js.Num(height)][HASH_FIELD := Js.Str(hash)]);
      Ok(SplToken.CreateSignedMessage(data, stringify, sign))
  }

  /** The anchor checks shared by both validators, in their order:
      an object as data, not expired, and on this node's chain. */
  function CheckAnchor(x: Js.Value, blocks: int, syncDelay: int, hashOf: int -> Result<string>,
                       nonObject: string): (r: Result<()>)
    ensures r.Ok? <==> Js.IsSpecified(x) && Anchored(Js.Get(x, "data"), blocks, syncDelay, hashOf)
    ensures Js.IsSpecified(x) && !Js.IsObject(Js.Get(x, "data")) ==> r == Err(nonObject)
    ensures var height := Js.Get(Js.Get(x, "data"), HEIGHT_FIELD);
      Js.IsSpecified(x) && Js.IsObject(Js.Get(x, "data")) && height.Num? && height.n < blocks - 2 * syncDelay ==>
        r == Err("Message expired")
  {
    var data :- Js.Field(x, "data");
    var _ :- Need(Js.IsObject(data), nonObject);
    var height := Js.Get(data, HEIGHT_FIELD);
    var _ :- Need(height.Num?, "Message anchor height is not a number");
    var _ :- Need(height.n >= blocks - 2 * syncDelay, "Message expired");
    var hash :- hashOf(height.n);
    Need(Js.StrictEq(Js.Get(data, HASH_FIELD), Js.Str(hash)), "Verification failed: incorrect chain")
  }

  /** The data carries an anchor no older than two sync delays whose hash
      is the one this node reports for its height. */
  predicate Anchored(data: Js.Value, blocks: int, syncDelay: int, hashOf: int -> Result<string>) {
    && Js.IsObject(data)
    && Js.Get(data, HEIGHT_FIELD).Num?
    && Js.Get(data, HEIGHT_FIELD).n >= blocks - 2 * syncDelay
    && hashOf(Js.Get(data, HEIGHT_FIELD).n).Ok?
    && Js.Get(data, HASH_FIELD) == Js.Str(hashOf(Js.Get(data, HEIGHT_FIELD).n).value)
  }

  /** `validateTimedAndSignedMessage(x, walletAddress, discard)`. */
  function ValidateTimed(x: Js.Value, walletAddress: string, discard: bool, blocks: int, syncDelay: int,
                         hashOf: int -> Result<string>, stringify: Js.Value -> string,
                         verify: (string, Js.Value, string) -> bool): (r: Result<Js.Value>)
    ensures r.Ok? <==>
      && Js.IsSpecified(x)
      && Anchored(Js.Get(x, "data"), blocks, syncDelay, hashOf)
      && verify(stringify(Js.Get(x, "data")), Js.Get(x, "signature"), walletAddress)
    ensures r.Ok? ==> r.value == SplToken.Returned(x, discard)
  {
    var _ :- CheckAnchor(x, blocks, syncDelay, hashOf, "Data is non-object");
    SplToken.ValidateSignedMessage(x, walletAddress, discard, stringify, verify)
  }

  /** `validateTimedAndSignedMessageOne(x, walletAddresses, discard)`. */
  function ValidateTimedOne(x: Js.Value, walletAddresses: seq<string>, discard: bool, blocks: int, syncDelay: int,
                            hashOf: int -> Result<string>, stringify: Js.Value -> string,
                            verify: (string, Js.Value, string) -> bool): (r: Result<Js.Value>)
    ensures r.Ok? ==> r.value == SplToken.Returned(x, discard)
  {
    var _ :- CheckAnchor(x, blocks, syncDelay, hashOf, "Data is non-object: " + stringify(x));
    SplToken.ValidateSignedMessageOne(x, walletAddresses, discard, stringify, verify)
  }

  /** The one-of-several validator accepts a well-formed, anchored message
      signed under exactly one of the candidate addresses. */
  lemma ValidateTimedOneSpec(x: Js.Value, walletAddresses: seq<string>, discard: bool, blocks: int, syncDelay: int,
                             hashOf: int -> Result<string>, stringify: Js.Value -> string,
                             verify: (string, Js.Value, string) -> bool)
    ensures ValidateTimedOne(x, walletAddresses, discard, blocks, syncDelay, hashOf, stringify, verify).Ok? <==>
      && Anchored(Js.Get(x, "data"), blocks, syncDelay, hashOf)
      && SplToken.StructureValid(x)
      && SplToken.ExactlyOneVerifies(stringify(Js.Get(x, "data")), Js.Get(x, "signature"), walletAddresses, verify)
  {
    SplToken.ValidateSignedMessageOneSpec(x, walletAddresses, discard, stringify, verify);
  }

  /** A message stamped at tip `created` is accepted at tip `now` on the same
      chain exactly while `now` is at most one sync delay further on, given
      that the receiver's key accepts the sender's signature. */
  lemma FreshnessWindow(x: Js.Value, created: int, now: int, syncDelay: int, hashOf: int -> Result<string>,
                        walletAddress: string, discard: bool, stringify: Js.Value -> string,
                        sign: string -> string, verify: (string, Js.Value, string) -> bool)
    requires CreateTimed(x, created, syncDelay, hashOf, stringify, sign).Ok?
    requires var m := CreateTimed(x, created, syncDelay, hashOf, stringify, sign).value;
      verify(stringify(Js.Get(m, "data")), Js.Get(m, "signature"), walletAddress)
    ensures var m := CreateTimed(x, created, syncDelay, hashOf, stringify, sign).value;
      ValidateTimed(m, walletAddress, discard, now, syncDelay, hashOf, stringify, verify).Ok? <==> now <= created + syncDelay
  {
    var m := CreateTimed(x, created, syncDelay, hashOf, stringify, sign).value;
    var data := Js.Get(m, "data");
    assert Js.Get(data, HEIGHT_FIELD) == Js.Num(created - syncDelay);
    assert Js.Get(data, HASH_FIELD) == Js.Str(hashOf(created - syncDelay).value);
  }
}
