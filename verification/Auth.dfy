/** The gate in front of every handler: public paths pass, all others need a token that a login returned. */
module Auth {
  import opened Strings
  import opened Tokens
  import opened Storage

  datatype Decision = PassOn | MissingHeader | InvalidToken

  const BEARER := "Bearer "

  predicate IsPublicRequest(path: string) {
    || path == "/ping"
    || path == "/users"
    || path == "/auth/login"
    || path == "/mongo/users"
    || StartsWith(path, "/tests/")
  }

  lemma BearerReadsBack(token: string)
    ensures (BEARER + token)[..|BEARER|] == BEARER && (BEARER + token)[|BEARER|..] == token
  {
  }

  lemma IssuedTokenIsNotEmpty(issued: seq<int>, token: string)
    requires token in TokensOf(issued)
    ensures token != ""
  {
  }

  /** A header that is too short or starts otherwise names no issued token. */
  lemma NoBearerNoToken(issued: seq<int>, header: string)
    requires |header| <= |BEARER| || header[..|BEARER|] != BEARER
    ensures forall token | token in TokensOf(issued) :: header != BEARER + token
  {
    forall token | token in TokensOf(issued) ensures header != BEARER + token {
      BearerReadsBack(token);
      IssuedTokenIsNotEmpty(issued, token);
    }
  }

  /** What follows the prefix is the only token the header can name. */
  lemma BearerNamesOne(header: string)
    requires BEARER <= header
    ensures header == BEARER + header[|BEARER|..]
    ensures forall token :: header == BEARER + token ==> token == header[|BEARER|..]
  {
    forall token | header == BEARER + token ensures token == header[|BEARER|..] {
      BearerReadsBack(token);
    }
  }

  class AuthMiddleware {
    const storage: TaxiStorage

    constructor (storage: TaxiStorage)
      ensures this.storage == storage
    {
      this.storage := storage;
    }

    /** `header` is empty when the request has no Authorization header. */
    method HandleRequest(path: string, header: string) returns (decision: Decision)
      requires storage.Valid()
      ensures decision == PassOn <==>
              || path == "/ping" || path == "/users" || path == "/auth/login" || path == "/mongo/users"
              || "/tests/" <= path
              || exists token | token in TokensOf(storage.issued) :: header == "Bearer " + token
      ensures decision == MissingHeader <==>
              && path != "/ping" && path != "/users" && path != "/auth/login" && path != "/mongo/users"
              && !("/tests/" <= path)
              && !("Bearer " < header)
    {
      StartsWithIsPrefix(path, "/tests/");
      if IsPublicRequest(path) {
        return PassOn;
      }
      if |header| <= |BEARER| || header[..|BEARER|] != BEARER {
        NoBearerNoToken(storage.issued, header);
        return MissingHeader;
      }
      var token := header[|BEARER|..];
      BearerNamesOne(header);
      var valid := storage.IsTokenValid(token);
      return if valid then PassOn else InvalidToken;
    }
  }
}
