/**
 * The token record and its file cache (internal/auth/token.go). Instants are
 * integers counting nanoseconds from Go's zero `time.Time`, so an unset
 * `CachedAt` is 0; the clock is a parameter. The cache file is a field whose
 * value is what a later read would find; the JSON encoding is taken to
 * round-trip exactly.
 */
module TokenCache {
  import opened Wrappers

  /** One second, in nanoseconds (`time.Second`). */
  const Second: int := 1_000_000_000

  /** `tokenBufferSecs`: a token counts as expired this long before it really expires. */
  const TokenBufferSecs: int := 300

  /** The buffer as a duration. */
  const Buffer: int := TokenBufferSecs * Second

  /** `TokenResponse`: the token endpoint's reply, plus the instant it was cached. */
  datatype TokenResponse = TokenResponse(
    accessToken: string,
    tokenType: string,
    expiresIn: int,
    refreshToken: string,
    scope: string,
    cachedAt: int)
  {
    /** The instant the token stops being valid: `CachedAt` plus `ExpiresIn` seconds. */
    function Expiration(): int {
      cachedAt + expiresIn * Second
    }

    /** `IsExpired`: never cached, or within the buffer of its expiration (exactly at the buffer's edge it is still valid). */
    predicate IsExpired(now: int) {
      cachedAt == 0 || now + Buffer > Expiration()
    }

    /** `RemainingValidity`: the time left until expiration, never negative, and zero for a token never cached. */
    function RemainingValidity(now: int): (d: int)
      ensures d >= 0
      ensures cachedAt == 0 ==> d == 0
      ensures cachedAt != 0 && now <= Expiration() ==> d == Expiration() - now
    {
      if cachedAt == 0 then 0
      else if Expiration() - now < 0 then 0
      else Expiration() - now
    }
  }

  /** A token that was never cached is expired and has no validity left. */
  lemma NeverCachedIsExpired(token: TokenResponse, now: int)
    requires token.cachedAt == 0
    ensures token.IsExpired(now)
    ensures token.RemainingValidity(now) == 0
  {
  }

  /** For a cached token, expiry is exactly "now plus the buffer is strictly after the expiration". */
  lemma ExpiredExactly(token: TokenResponse, now: int)
    requires token.cachedAt != 0
    ensures token.IsExpired(now) <==> now + Buffer > token.cachedAt + token.expiresIn * Second
    ensures now + Buffer == token.Expiration() ==> !token.IsExpired(now)
  {
  }

  /** Once expired, a token stays expired as the clock moves on. */
  lemma ExpiredStaysExpired(token: TokenResponse, now: int, later: int)
    requires now <= later && token.IsExpired(now)
    ensures token.IsExpired(later)
  {
  }

  /** For a cached token the remaining validity is the larger of zero and the time to expiration. */
  lemma RemainingIsClamped(token: TokenResponse, now: int)
    requires token.cachedAt != 0
    ensures token.RemainingValidity(now) == if token.Expiration() - now < 0 then 0 else token.Expiration() - now
  {
  }

  /** A token that is not expired still has at least the buffer left. */
  lemma ValidTokenKeepsBuffer(token: TokenResponse, now: int)
    requires !token.IsExpired(now)
    ensures token.RemainingValidity(now) >= Buffer
  {
  }

  /** What is at the cache path: no file, a file whose bytes are not a token, or a token. */
  datatype CacheFile = Missing | Garbled | Holds(token: TokenResponse)

  datatype CacheError = ReadFailed | ParseFailed | TokenExpired | WriteFailed | RemoveFailed

  /** What `LoadToken` returns for a file at a given instant. */
  function Loaded(file: CacheFile, now: int): Result<TokenResponse, CacheError> {
    match file
    case Missing => Failure(ReadFailed)
    case Garbled => Failure(ParseFailed)
    case Holds(token) => if token.IsExpired(now) then Failure(TokenExpired) else Success(token)
  }

  /** A load succeeds exactly when the file holds a token that is not expired, and then yields that token. */
  lemma LoadedIsStoredAndFresh(file: CacheFile, now: int)
    ensures Loaded(file, now).Success? <==> file.Holds? && !file.token.IsExpired(now)
    ensures Loaded(file, now).Success? ==> Loaded(file, now).value == file.token
    ensures file.Missing? ==> Loaded(file, now) == Failure(ReadFailed)
    ensures file.Garbled? ==> Loaded(file, now) == Failure(ParseFailed)
  {
  }

  /** The token as `SaveToken` stores it: stamped with the current instant. */
  function Stamped(token: TokenResponse, now: int): (stamped: TokenResponse)
    ensures stamped.cachedAt == now
    ensures stamped.(cachedAt := token.cachedAt) == token
  {
    token.(cachedAt := now)
  }

  /** A token saved at a nonzero instant loads back, stamp included, while its expiration is more than the buffer away. */
  lemma SaveThenLoad(token: TokenResponse, now: int, later: int)
    requires now != 0
    requires later + Buffer <= now + token.expiresIn * Second
    ensures Loaded(Holds(Stamped(token, now)), later) == Success(Stamped(token, now))
  {
  }

  /** `TokenCacheManager`, with its file as a field. */
  class TokenCacheManager {
    var file: CacheFile

    constructor(file: CacheFile)
      ensures this.file == file
    {
      this.file := file;
    }

    /** `LoadToken`: reads the file and returns the token only when it parses and is not expired. */
    method LoadToken(now: int) returns (r: Result<TokenResponse, CacheError>)
      ensures r == Loaded(file, now)
    {
      match file
      case Missing =>
        return Failure(ReadFailed);
      case Garbled =>
        return Failure(ParseFailed);
      case Holds(token) =>
        if token.IsExpired(now) {
          return Failure(TokenExpired);
        }
        return Success(token);
    }

    /**
     * `SaveToken`: stamps the caller's token with the current instant (the
     * stamped token is returned, standing for the update through Go's pointer)
     * and replaces the whole file with it. A failed write reports an error and
     * leaves the file as `leftBehind` says.
     */
    method SaveToken(token: TokenResponse, now: int, writeFails: bool, leftBehind: CacheFile)
      returns (stamped: TokenResponse, r: Result<(), CacheError>)
      modifies this
      ensures stamped == Stamped(token, now)
      ensures !writeFails ==> r == Success(()) && file == Holds(stamped)
      ensures writeFails ==> r == Failure(WriteFailed) && file == leftBehind
    {
      stamped := token.(cachedAt := now);
      if writeFails {
        file := leftBehind;
        return stamped, Failure(WriteFailed);
      }
      file := Holds(stamped);
      return stamped, Success(());
    }

    /** `ClearCache`: removes the file; a file already absent counts as removed, and a failed removal leaves it in place. */
    method ClearCache(removeFails: bool) returns (r: Result<(), CacheError>)
      modifies this
      ensures old(file).Missing? ==> r == Success(()) && file == Missing
      ensures !old(file).Missing? && removeFails ==> r == Failure(RemoveFailed) && file == old(file)
      ensures !old(file).Missing? && !removeFails ==> r == Success(()) && file == Missing
    {
      if file.Missing? {
        return Success(());
      }
      if removeFails {
        return Failure(RemoveFailed);
      }
      file := Missing;
      return Success(());
    }
  }
}
