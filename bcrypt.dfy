/**
 * A symbolic stand-in for bcryptjs. A hash is the version-and-cost prefix of
 * `genSalt(10)`, the salt, and a digest of the plaintext; here the digest is
 * the plaintext itself, so `compare` can be decided. What the service relies
 * on is kept: a candidate compares true against a hash exactly when it is the
 * hashed plaintext, hashes of one password under two salts differ, and a
 * string that is not a hash compares false. One-wayness is not modelled.
 */
module Bcrypt {
  import opened Wrappers
  import Text

  /** The random salt drawn by `bcrypt.genSalt`. */
  type Salt = nat

  /** Hash version `2a` with cost factor 10, the argument of `genSalt(10)`. */
  const Prefix: string := "$2a$10$"

  /** `bcrypt.hash(plain, salt)`. */
  function Hash(plain: string, salt: Salt): string {
    Prefix + Text.NatToString(salt) + "$" + plain
  }

  function Parse(hash: string): Option<(Salt, string)> {
    if |hash| < |Prefix| || hash[..|Prefix|] != Prefix then None
    else
      match Text.SplitFirst(hash[|Prefix|..], '$')
      case None => None
      case Some(p) =>
        match Text.ParseNat(p.0)
        case None => None
        case Some(salt) => Some((salt, p.1))
  }

  /** `bcrypt.compare(candidate, hash)`; a malformed hash compares false. */
  function Compare(candidate: string, hash: string): bool {
    match Parse(hash)
    case None => false
    case Some(p) => p.1 == candidate
  }

  lemma ParseHash(plain: string, salt: Salt)
    ensures Parse(Hash(plain, salt)) == Some((salt, plain))
  {
    var digits := Text.NatToString(salt);
    var h := Hash(plain, salt);
    assert h[..|Prefix|] == Prefix;
    assert h[|Prefix|..] == digits + ['$'] + plain;
    Text.DigitsHaveNo(digits, '$');
    Text.SplitFirstAt(digits, plain, '$');
    Text.ParseNatToString(salt);
  }

  /** A candidate matches a hash exactly when it is the plaintext that was hashed. */
  lemma CompareHash(candidate: string, plain: string, salt: Salt)
    ensures Compare(candidate, Hash(plain, salt)) <==> candidate == plain
  {
    ParseHash(plain, salt);
  }

  /** Hashing one password under two different salts gives two different hashes. */
  lemma SaltsSeparate(plain: string, s1: Salt, s2: Salt)
    requires s1 != s2
    ensures Hash(plain, s1) != Hash(plain, s2)
  {
    ParseHash(plain, s1);
    ParseHash(plain, s2);
  }

  /** A hash is longer than the plaintext it hides, so it is never that plaintext. */
  lemma HashIsNotPlain(plain: string, salt: Salt)
    ensures Hash(plain, salt) != plain
  {
    assert |Hash(plain, salt)| > |plain|;
  }
}
