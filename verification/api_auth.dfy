/**
 * `Auth` of the `api` crate: turns libreauth's hashing and PHC parsing
 * results into `Option`s, so that neither function can fail or panic.
 */
module ApiAuth {
  import opened Wrappers

  /** libreauth's `pass::Error`. */
  datatype PassError = PasswordTooShort(min: nat) | PasswordTooLong(max: nat) | InvalidPasswordFormat

  /** A hasher rebuilt from a stored PHC string; `isValid` checks a password against that hash. */
  datatype PhcHasher = PhcHasher(isValid: string -> bool)

  /**
   * The library calls `Auth` makes, abstract: `hasher` is the configured
   * `Hasher::hash` (its random salt is part of the abstraction) and `fromPhc`
   * is `HashBuilder::from_phc`.
   */
  datatype Auth = Auth(hasher: string -> Result<string, PassError>,
                       fromPhc: string -> Result<PhcHasher, PassError>)
  {
    /** The hash of `password`, or `None` when the hasher refuses it. */
    function Hash(password: string): (r: Option<string>)
      ensures r.Some? <==> hasher(password).Ok?
      ensures r.Some? ==> r.value == hasher(password).value
    {
      match hasher(password)
      case Ok(s) => Some(s)
      case Err(PasswordTooShort(_)) => None
      case Err(PasswordTooLong(_)) => None
      case Err(InvalidPasswordFormat) => None
    }

    /**
     * Whether `toCheck` matches the stored hash: a length error while parsing
     * the hash counts as a mismatch, an unreadable hash gives `None`.
     */
    function Validate(hashed: string, toCheck: string): (r: Option<bool>)
      ensures fromPhc(hashed).Ok? ==> r == Some(fromPhc(hashed).value.isValid(toCheck))
      ensures fromPhc(hashed).Err? && !fromPhc(hashed).error.InvalidPasswordFormat? ==> r == Some(false)
      ensures r.None? <==> fromPhc(hashed) == Err(InvalidPasswordFormat)
    {
      match fromPhc(hashed)
      case Ok(h) => Some(h.isValid(toCheck))
      case Err(PasswordTooShort(_)) => Some(false)
      case Err(PasswordTooLong(_)) => Some(false)
      case Err(InvalidPasswordFormat) => None
    }
  }

  /** What libreauth guarantees of a hash it produced: it parses back and accepts its password. */
  ghost predicate HashesVerify(a: Auth)
  {
    forall p :: a.hasher(p).Ok? ==> a.fromPhc(a.hasher(p).value).Ok? && a.fromPhc(a.hasher(p).value).value.isValid(p)
  }

  /** Under that guarantee, a password validates against its own hash. */
  lemma HashThenValidate(a: Auth, password: string)
    requires HashesVerify(a) && a.Hash(password).Some?
    ensures a.Validate(a.Hash(password).value, password) == Some(true)
  {
  }
}
