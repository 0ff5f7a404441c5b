/**
 * backend/core/app/modules/token_module.ts: issuing, checking and revoking the
 * hashed tokens of the token table. Only the hash of a secret is stored; the
 * secret lives in the returned holder and in the token value given to the
 * client.
 */
module TokenModule {
  import opened Wrappers
  import opened Literals
  import opened Records
  import opened Store
  import opened TokenCodec
  import opened ParseError

  /** The length of a generated secret. */
  const SecretLength := 42
  /** `JSON.stringify([])`. */
  const NoAbilities := "[]"
  /** The largest distance from the epoch, in milliseconds, of a valid date. */
  const MaxDateMillis := 8_640_000_000_000_000
  const InvalidExpiration := "Invalid expiration date"
  const MissingValue := "Access token value is missing"
  const MissingValueOnSerialize := "Cannot read properties of undefined (reading 'release')"

  /** `TokenHolder`: a token record seen through the access-token library, with the secret when known. */
  datatype Holder = Holder(
    identifier: Id,
    tokenableId: Id,
    tokenType: TokenType,
    hash: Digest,
    createdAt: Time,
    expiresAt: Option<Time>,
    secret: Option<string>)

  function HolderOf(t: Token, secret: Option<string>): (h: Holder)
    ensures h.identifier == t.id && h.tokenableId == t.tokenableId && h.tokenType == t.tokenType
    ensures h.hash == t.hash && h.expiresAt == t.expiresAt && h.secret == secret
  {
    Holder(t.id, t.tokenableId, t.tokenType, t.hash, t.createdAt, t.expiresAt, secret)
  }

  /** The holder's `value`: present exactly when the secret is known. */
  function Value(h: Holder): (v: Option<string>)
    ensures v.Some? <==> h.secret.Some?
    ensures v.Some? ==> StartsWith(v.value, Prefix)
  {
    match h.secret
    case None => None
    case Some(secret) =>
      assert (Prefix + Decimal.FromNat(h.identifier) + "." + secret)[..|Prefix|] == Prefix;
      Some(Encode(h.identifier, secret))
  }

  /** `getValueOrFail`. */
  function GetValueOrFail(h: Holder): (r: Result<string, Thrown>)
    ensures r.Ok? <==> h.secret.Some?
    ensures r.Ok? ==> Some(r.value) == Value(h)
    ensures r.Err? ==> r.error == Unknown(MissingValue)
  {
    match Value(h)
    case Some(v) => Ok(v)
    case None => Err(Unknown(MissingValue))
  }

  datatype Serialized = Serialized(kind: string, value: string, expiresAt: Option<Time>)

  /** `serialize`: a bearer token; without a value, `release` is read off `undefined` and throws. */
  function Serialize(h: Holder): (r: Result<Serialized, Thrown>)
    ensures r.Ok? <==> h.secret.Some?
    ensures r.Ok? ==> r.value.kind == "bearer" && Some(r.value.value) == Value(h) && r.value.expiresAt == h.expiresAt
  {
    match Value(h)
    case Some(v) => Ok(Serialized("bearer", v, h.expiresAt))
    case None => Err(Unknown(MissingValueOnSerialize))
  }

  // ----- create -----

  predicate DateIsValid(at: Option<Time>)
  {
    at.None? || -MaxDateMillis <= at.value <= MaxDateMillis
  }

  /** The expiry of a token issued at `now`. */
  function ExpiryFrom(now: Time, expiresIn: Option<int>): Option<Time>
  {
    match expiresIn
    case None => None
    case Some(d) => Some(now + d)
  }

  /** `Token.findBy({ tokenableId, type })`: the first token of the user with this type. */
  function FirstOfUser(tokens: seq<Token>, userId: Id, tokenType: TokenType): (r: Option<nat>)
    ensures r.Some? ==> r.value < |tokens| && tokens[r.value].tokenableId == userId && tokens[r.value].tokenType == tokenType
    ensures r.Some? ==> forall j :: 0 <= j < r.value ==> !(tokens[j].tokenableId == userId && tokens[j].tokenType == tokenType)
    ensures r.None? ==> forall j :: 0 <= j < |tokens| ==> !(tokens[j].tokenableId == userId && tokens[j].tokenType == tokenType)
  {
    if tokens == [] then None
    else if tokens[0].tokenableId == userId && tokens[0].tokenType == tokenType then Some(0)
    else match FirstOfUser(tokens[1..], userId, tokenType)
      case None => None
      case Some(k) => Some(k + 1)
  }

  /** `deleteIfExists`: the first existing token of the user with this type is deleted, and no other. */
  function ReplaceExisting(tokens: seq<Token>, userId: Id, tokenType: TokenType): (r: seq<Token>)
    ensures FirstOfUser(tokens, userId, tokenType).None? ==> r == tokens
    ensures FirstOfUser(tokens, userId, tokenType).Some? ==>
      var i := FirstOfUser(tokens, userId, tokenType).value; r == tokens[..i] + tokens[i + 1..]
  {
    match FirstOfUser(tokens, userId, tokenType)
    case None => tokens
    case Some(i) => RemoveAt(tokens, i)
  }

  function CountOf(tokens: seq<Token>, userId: Id, tokenType: TokenType): nat
  {
    if tokens == [] then 0
    else (if tokens[0].tokenableId == userId && tokens[0].tokenType == tokenType then 1 else 0) + CountOf(tokens[1..], userId, tokenType)
  }

  lemma {:induction false} RemoveAtCount(tokens: seq<Token>, i: nat, userId: Id, tokenType: TokenType)
    requires i < |tokens|
    ensures CountOf(tokens, userId, tokenType) ==
      CountOf(tokens[..i] + tokens[i + 1..], userId, tokenType) + (if tokens[i].tokenableId == userId && tokens[i].tokenType == tokenType then 1 else 0)
  {
    if i > 0 {
      RemoveAtCount(tokens[1..], i - 1, userId, tokenType);
      assert (tokens[..i] + tokens[i + 1..])[1..] == tokens[1..][..i - 1] + tokens[1..][i..];
    } else {
      assert tokens[..i] + tokens[i + 1..] == tokens[1..];
    }
  }

  /** `deleteIfExists` removes at most one token: exactly one when the user had one of this type. */
  lemma ReplaceExistingRemovesOne(tokens: seq<Token>, userId: Id, tokenType: TokenType)
    ensures var before := CountOf(tokens, userId, tokenType);
      CountOf(ReplaceExisting(tokens, userId, tokenType), userId, tokenType) == if before == 0 then 0 else before - 1
    ensures |ReplaceExisting(tokens, userId, tokenType)| >= |tokens| - 1
  {
    match FirstOfUser(tokens, userId, tokenType)
    case None =>
      NoneCountsZero(tokens, userId, tokenType);
    case Some(i) =>
      RemoveAtCount(tokens, i, userId, tokenType);
  }

  lemma {:induction false} NoneCountsZero(tokens: seq<Token>, userId: Id, tokenType: TokenType)
    requires forall j :: 0 <= j < |tokens| ==> !(tokens[j].tokenableId == userId && tokens[j].tokenType == tokenType)
    ensures CountOf(tokens, userId, tokenType) == 0
  {
    if tokens != [] {
      NoneCountsZero(tokens[1..], userId, tokenType);
    }
  }

  lemma {:induction false} CountAppend(tokens: seq<Token>, t: Token, userId: Id, tokenType: TokenType)
    ensures CountOf(tokens + [t], userId, tokenType) ==
      CountOf(tokens, userId, tokenType) + (if t.tokenableId == userId && t.tokenType == tokenType then 1 else 0)
  {
    if tokens != [] {
      assert (tokens + [t])[1..] == tokens[1..] + [t];
      CountAppend(tokens[1..], t, userId, tokenType);
    }
  }

  /** The record `create` inserts: the hash of the secret, no abilities, never used. */
  function Issued(id: Id, userId: Id, tokenType: TokenType, name: Option<string>, hash: Digest, now: Time, expiresAt: Option<Time>): Token
  {
    Token(id, userId, tokenType, name, hash, NoAbilities, now, None, expiresAt)
  }

  /**
   * `create`. With `deleteIfExists` the user's first token of this type is
   * deleted first; an expiry that is not a valid date then fails, after that
   * deletion. `secret` is the random secret the library generates.
   */
  method Create(s: Store, userId: Id, tokenType: TokenType, name: Option<string>, expiresIn: Option<int>, deleteIfExists: bool, secret: string)
    returns (r: Result<Holder, Thrown>)
    requires |secret| == SecretLength
    modifies s
    ensures var kept := if deleteIfExists then ReplaceExisting(old(s.tokens), userId, tokenType) else old(s.tokens);
      var expiresAt := ExpiryFrom(old(s.clock), expiresIn);
      (r.Err? <==> !DateIsValid(expiresAt)) &&
      (r.Err? ==> r.error == Unknown(InvalidExpiration) && s.tokens == kept && s.nextId == old(s.nextId)) &&
      (r.Ok? ==>
        var record := Issued(old(s.nextId), userId, tokenType, name, s.tokenHash(secret), old(s.clock), expiresAt);
        s.tokens == kept + [record] && s.nextId == old(s.nextId) + 1 &&
        r.value == HolderOf(record, Some(secret)))
    ensures s.users == old(s.users) && s.workspaces == old(s.workspaces) && s.members == old(s.members) && s.blogs == old(s.blogs)
    ensures s.clock == old(s.clock) && s.mails == old(s.mails) && s.expiredCaches == old(s.expiredCaches)
  {
    if deleteIfExists {
      s.tokens := ReplaceExisting(s.tokens, userId, tokenType);
    }
    var expiresAt := ExpiryFrom(s.clock, expiresIn);
    if !DateIsValid(expiresAt) {
      return Err(Unknown(InvalidExpiration));
    }
    var id := s.NewId();
    var record := Issued(id, userId, tokenType, name, s.tokenHash(secret), s.clock, expiresAt);
    s.tokens := s.tokens + [record];
    r := Ok(HolderOf(record, Some(secret)));
  }

  // ----- verify -----

  /** `Token.findBy({ id, type })`. */
  function FindByIdAndType(tokens: seq<Token>, id: Id, tokenType: TokenType): (r: Option<nat>)
    ensures r.Some? ==> r.value < |tokens| && tokens[r.value].id == id && tokens[r.value].tokenType == tokenType
    ensures r.Some? ==> forall j :: 0 <= j < r.value ==> !(tokens[j].id == id && tokens[j].tokenType == tokenType)
    ensures r.None? ==> forall j :: 0 <= j < |tokens| ==> !(tokens[j].id == id && tokens[j].tokenType == tokenType)
  {
    if tokens == [] then None
    else if tokens[0].id == id && tokens[0].tokenType == tokenType then Some(0)
    else match FindByIdAndType(tokens[1..], id, tokenType)
      case None => None
      case Some(k) => Some(k + 1)
  }

  /** The record `verify` loads for a token value, if the value decodes and a record matches. */
  function Lookup(tokens: seq<Token>, value: string, tokenType: TokenType): (r: Option<nat>)
    ensures r.Some? ==> Decode(value).Some? && r == FindByIdAndType(tokens, Decode(value).value.identifier, tokenType)
    ensures Decode(value).Some? ==> r == FindByIdAndType(tokens, Decode(value).value.identifier, tokenType)
  {
    match Decode(value)
    case None => None
    case Some(d) => FindByIdAndType(tokens, d.identifier, tokenType)
  }

  /** What `verify` answers: the holder when the secret matches the stored hash and the record has not expired. */
  function VerifyOutcome(tokens: seq<Token>, hash: string -> Digest, now: Time, value: string, tokenType: TokenType): (r: Option<Holder>)
    ensures Lookup(tokens, value, tokenType).None? ==> r.None?
    ensures Lookup(tokens, value, tokenType).Some? ==>
      var t := tokens[Lookup(tokens, value, tokenType).value];
      var secret := Decode(value).value.secret;
      (r.Some? <==> hash(secret) == t.hash && !IsExpired(t, now)) &&
      (r.Some? ==> r.value == HolderOf(t, Some(secret)))
  {
    match Lookup(tokens, value, tokenType)
    case None => None
    case Some(i) =>
      var secret := Decode(value).value.secret;
      if hash(secret) != tokens[i].hash || IsExpired(tokens[i], now) then None
      else Some(HolderOf(tokens[i], Some(secret)))
  }

  /** The token table after `verify`: the loaded record's `lastUsedAt` is now, whether or not the secret matched. */
  function TokensAfterVerify(tokens: seq<Token>, now: Time, value: string, tokenType: TokenType): (r: seq<Token>)
    ensures |r| == |tokens|
    ensures Lookup(tokens, value, tokenType).None? ==> r == tokens
    ensures Lookup(tokens, value, tokenType).Some? ==>
      var i := Lookup(tokens, value, tokenType).value; r == tokens[i := tokens[i].(lastUsedAt := Some(now))]
  {
    match Lookup(tokens, value, tokenType)
    case None => tokens
    case Some(i) => tokens[i := tokens[i].(lastUsedAt := Some(now))]
  }

  /** `verify`; a `null` result is `None`. */
  method Verify(s: Store, value: string, tokenType: TokenType) returns (r: Option<Holder>)
    modifies s
    ensures r == VerifyOutcome(old(s.tokens), s.tokenHash, old(s.clock), value, tokenType)
    ensures s.tokens == TokensAfterVerify(old(s.tokens), old(s.clock), value, tokenType)
    ensures s.users == old(s.users) && s.workspaces == old(s.workspaces) && s.members == old(s.members) && s.blogs == old(s.blogs)
    ensures s.nextId == old(s.nextId) && s.clock == old(s.clock) && s.mails == old(s.mails) && s.expiredCaches == old(s.expiredCaches)
  {
    var decoded := Decode(value);
    if decoded.None? {
      return None;
    }
    var found := FindByIdAndType(s.tokens, decoded.value.identifier, tokenType);
    if found.None? {
      return None;
    }
    var i := found.value;
    s.tokens := s.tokens[i := s.tokens[i].(lastUsedAt := Some(s.clock))];
    var holder := HolderOf(s.tokens[i], Some(decoded.value.secret));
    if s.tokenHash(decoded.value.secret) != holder.hash || IsExpired(s.tokens[i], s.clock) {
      return None;
    }
    r := Some(holder);
  }

  // ----- delete -----

  /** `where('id', identifier).delete()`: every row with that id goes. */
  function WithoutId(tokens: seq<Token>, id: Id): (r: seq<Token>)
    ensures forall j :: 0 <= j < |r| ==> r[j].id != id
    ensures forall j :: 0 <= j < |tokens| && tokens[j].id != id ==> tokens[j] in r
    ensures forall t :: t in r ==> t in tokens
    ensures |r| <= |tokens|
  {
    if tokens == [] then []
    else (if tokens[0].id == id then [] else [tokens[0]]) + WithoutId(tokens[1..], id)
  }

  /** `TokenHolder.delete`. */
  method Delete(s: Store, h: Holder)
    modifies s
    ensures s.tokens == WithoutId(old(s.tokens), h.identifier)
    ensures s.users == old(s.users) && s.workspaces == old(s.workspaces) && s.members == old(s.members) && s.blogs == old(s.blogs)
    ensures s.nextId == old(s.nextId) && s.clock == old(s.clock) && s.mails == old(s.mails) && s.expiredCaches == old(s.expiredCaches)
  {
    s.tokens := WithoutId(s.tokens, h.identifier);
  }

  // ----- properties relating the operations -----

  /**
   * A freshly issued token verifies with its own value, for its own type,
   * until it expires: create and verify are inverse.
   */
  lemma IssuedTokenVerifies(tokens: seq<Token>, hash: string -> Digest, record: Token, secret: string, now: Time)
    requires forall j :: 0 <= j < |tokens| ==> tokens[j].id < record.id
    requires record.hash == hash(secret) && secret != ""
    requires !IsExpired(record, now)
    ensures VerifyOutcome(tokens + [record], hash, now, Encode(record.id, secret), record.tokenType) == Some(HolderOf(record, Some(secret)))
  {
    DecodeEncode(record.id, secret);
    var all := tokens + [record];
    var found := FindByIdAndType(all, record.id, record.tokenType);
    assert all[|tokens|] == record;
    assert found == Some(|tokens|);
  }

  /** Once its record is deleted, a token never verifies again: verification tokens are single-use. */
  lemma DeletedTokenNeverVerifies(tokens: seq<Token>, hash: string -> Digest, now: Time, value: string, tokenType: TokenType, h: Holder)
    requires Decode(value).Some? && Decode(value).value.identifier == h.identifier
    ensures VerifyOutcome(WithoutId(tokens, h.identifier), hash, now, value, tokenType).None?
    ensures TokensAfterVerify(WithoutId(tokens, h.identifier), now, value, tokenType) == WithoutId(tokens, h.identifier)
  {
  }

  /** A wrong secret still marks the record as used, although verification fails. */
  lemma WrongSecretStillTouches(tokens: seq<Token>, hash: string -> Digest, now: Time, value: string, tokenType: TokenType)
    requires Lookup(tokens, value, tokenType).Some?
    requires hash(Decode(value).value.secret) != tokens[Lookup(tokens, value, tokenType).value].hash
    ensures VerifyOutcome(tokens, hash, now, value, tokenType).None?
    ensures TokensAfterVerify(tokens, now, value, tokenType)[Lookup(tokens, value, tokenType).value].lastUsedAt == Some(now)
  {
  }

  /** A token of one type never verifies as another type. */
  lemma TypeIsChecked(tokens: seq<Token>, hash: string -> Digest, now: Time, value: string, tokenType: TokenType)
    requires VerifyOutcome(tokens, hash, now, value, tokenType).Some?
    ensures VerifyOutcome(tokens, hash, now, value, tokenType).value.tokenType == tokenType
  {
  }

  /** An issued holder has a value that starts with the prefix and decodes back to its id and secret. */
  lemma IssuedValueDecodes(h: Holder)
    requires h.secret.Some? && h.secret.value != ""
    ensures Value(h).Some? && StartsWith(Value(h).value, Prefix)
    ensures Decode(Value(h).value) == Some(Decoded(h.identifier, h.secret.value))
  {
    DecodeEncode(h.identifier, h.secret.value);
  }
}
