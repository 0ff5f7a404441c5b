/**
 * The token string handed to clients: prefix, identifier, a dot, then the
 * secret. The access-token library writes the identifier in URL-safe
 * base64; the model writes it in decimal, which keeps the same shape (no dot
 * inside the identifier) and the same round trip.
 */
module TokenCodec {
  import opened Wrappers
  import Decimal

  /** `TokenModule.prefix`. */
  const Prefix := "at_"

  predicate StartsWith(s: string, prefix: string)
  {
    |prefix| <= |s| && s[..|prefix|] == prefix
  }

  /** The position of the first '.', if any. */
  function FirstDot(s: string): (r: Option<nat>)
    ensures r.Some? ==> r.value < |s| && s[r.value] == '.' && forall j :: 0 <= j < r.value ==> s[j] != '.'
    ensures r.None? ==> forall j :: 0 <= j < |s| ==> s[j] != '.'
  {
    if s == [] then None
    else if s[0] == '.' then Some(0)
    else match FirstDot(s[1..])
      case None => None
      case Some(k) => Some(k + 1)
  }

  datatype Decoded = Decoded(identifier: nat, secret: string)

  /** The token value of record `identifier` with the given secret. */
  function Encode(identifier: nat, secret: string): string
  {
    Prefix + Decimal.FromNat(identifier) + "." + secret
  }

  /**
   * `decode`: the value must start with the prefix; what follows is split at
   * the first dot into a non-empty identifier and a non-empty secret (which
   * may itself contain dots).
   */
  function Decode(value: string): (r: Option<Decoded>)
    ensures r.Some? ==> StartsWith(value, Prefix) && r.value.secret != ""
    ensures r.Some? ==> |r.value.secret| < |value| && value[|value| - |r.value.secret|..] == r.value.secret
  {
    if !StartsWith(value, Prefix) then None
    else
      var rest := value[|Prefix|..];
      match FirstDot(rest)
      case None => None
      case Some(k) =>
        var identifier := rest[..k];
        var secret := rest[k + 1..];
        if secret == "" then None
        else match Decimal.Parse(identifier)
          case None => None
          case Some(n) => Some(Decoded(n, secret))
  }

  /** Decoding an encoded value gives back the identifier and the secret. */
  lemma DecodeEncode(identifier: nat, secret: string)
    requires secret != ""
    ensures Decode(Encode(identifier, secret)) == Some(Decoded(identifier, secret))
  {
    var digits := Decimal.FromNat(identifier);
    var value := Encode(identifier, secret);
    assert value[..|Prefix|] == Prefix;
    var rest := value[|Prefix|..];
    assert rest == digits + "." + secret;
    assert rest[|digits|] == '.';
    assert forall j :: 0 <= j < |digits| ==> rest[j] == digits[j] && rest[j] != '.';
    assert FirstDot(rest) == Some(|digits|);
    assert rest[..|digits|] == digits;
    assert rest[|digits| + 1..] == secret;
    Decimal.ParseFromNat(identifier);
  }

  /** Values without the prefix never decode. */
  lemma WrongPrefixRejected(value: string)
    requires !StartsWith(value, Prefix)
    ensures Decode(value).None?
  {
  }
}
