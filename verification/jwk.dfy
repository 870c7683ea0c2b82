/**
 * mock/generate_jwk.py: turning RSA public numbers into a JWK, and
 * collecting one JWK per generated key into a key set. Key generation, the
 * key identifiers and the private-key files are outside the model; each
 * generated key is an input.
 */
module Jwk {
  import opened Wrappers
  import opened Base64Url

  const KEY_TYPE: string := "RSA"
  const ALGORITHM: string := "RS256"
  const KEY_USE: string := "sig"

  /** The public exponent the key generator uses. */
  const PUBLIC_EXPONENT: nat := 65537

  /** The modulus and public exponent of an RSA public key. */
  datatype PublicNumbers = PublicNumbers(n: nat, e: nat)

  /** The JWK dict the source builds; member names follow the dict keys. */
  datatype Jwk = Jwk(kty: string, kid: string, n: string, e: string, alg: string, use: string)

  /** `{"keys": keys}`. */
  datatype Jwks = Jwks(keys: seq<Jwk>)

  /** What one loop iteration draws: a fresh key identifier and a fresh key pair's public numbers. */
  datatype GeneratedKey = GeneratedKey(kid: string, numbers: PublicNumbers)

  /**
   * `public_key_to_jwk`: fixed type, algorithm and use, the given key id,
   * and the modulus and exponent each as a Base64urlUInt value that a
   * reader decodes back to the same integer.
   */
  function PublicKeyToJwk(numbers: PublicNumbers, keyId: string): (r: Jwk)
    ensures r.kty == "RSA" && r.kid == keyId && r.alg == "RS256" && r.use == "sig"
    ensures DecodeUInt(r.n) == Some(numbers.n) && DecodeUInt(r.e) == Some(numbers.e)
    ensures '=' !in r.n && '=' !in r.e
  {
    Base64UrlUIntRoundTrip(numbers.n);
    Base64UrlUIntRoundTrip(numbers.e);
    Jwk(KEY_TYPE, keyId, Base64UrlUInt(numbers.n), Base64UrlUInt(numbers.e), ALGORITHM, KEY_USE)
  }

  /** Keys generated with the standard exponent carry "AQAB" as `e`. */
  lemma StandardExponentMember(n: nat, keyId: string)
    ensures PublicKeyToJwk(PublicNumbers(n, PUBLIC_EXPONENT), keyId).e == "AQAB"
  {
    ExponentEncoding();
  }

  /** The first `count` values of `f`, in order. */
  function Collect<T>(count: nat, f: nat -> T): (r: seq<T>)
    ensures |r| == count
  {
    if count == 0 then [] else Collect(count - 1, f) + [f(count - 1)]
  }

  lemma {:induction false} CollectAt<T>(count: nat, f: nat -> T)
    ensures forall i :: 0 <= i < count ==> Collect(count, f)[i] == f(i)
  {
    if count > 0 {
      CollectAt(count - 1, f);
    }
  }

  /** The JWK of what the `i`-th iteration draws. */
  function KeyOf(draw: nat -> GeneratedKey): nat -> Jwk {
    (i: nat) => PublicKeyToJwk(draw(i).numbers, draw(i).kid)
  }

  /**
   * `generate_jwks`: one JWK per iteration, appended in generation order;
   * `draw(i)` is what the `i`-th iteration generates.
   */
  method GenerateJwks(numKeys: nat, draw: nat -> GeneratedKey) returns (jwks: Jwks)
    ensures |jwks.keys| == numKeys
    ensures forall i :: 0 <= i < numKeys ==> jwks.keys[i] == PublicKeyToJwk(draw(i).numbers, draw(i).kid)
  {
    var keys: seq<Jwk> := [];
    for i := 0 to numKeys
      invariant keys == Collect(i, KeyOf(draw))
    {
      var g := draw(i);
      var jwk := PublicKeyToJwk(g.numbers, g.kid);
      keys := keys + [jwk];
    }
    jwks := Jwks(keys);
    CollectAt(numKeys, KeyOf(draw));
  }
}
