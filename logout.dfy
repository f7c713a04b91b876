/** `LogoutView.post`: the refresh token in the body is read and verified,
    then its identifier is added to the blacklist; any failure on the way
    answers 400 and leaves the blacklist as it was. Verifying a token
    (signature, expiry, structure) is a partial function given as `parse`;
    verification also refuses a token that is already blacklisted. A null
    token is not verified at all: `RefreshToken(None)` makes a new token,
    whose identifier, drawn at random, is the parameter `newJti`. */
module Logout {
  import opened Wrappers

  /** The identifier (`jti`) of a refresh token. */
  type TokenId = string

  /** A request body: field name to a string or null. */
  type Body = map<string, Option<string>>

  const ResetContent: nat := 205
  const BadRequest: nat := 400

  /** The status and the blacklist after one logout request: 205 exactly
      when the body has a `refresh` entry that is null, or that parses to a
      token not yet blacklisted; that token's identifier is then added and
      nothing else is. Otherwise 400, and the blacklist is unchanged. */
  function LogoutStep(revoked: set<TokenId>, body: Body,
                      parse: string -> Option<TokenId>, newJti: TokenId): (r: (nat, set<TokenId>))
    ensures r.0 == ResetContent <==>
              && "refresh" in body
              && (body["refresh"].Some? ==>
                    parse(body["refresh"].value).Some? && parse(body["refresh"].value).value !in revoked)
    ensures r.0 == ResetContent && "refresh" in body && body["refresh"].None? ==> r.1 == revoked + {newJti}
    ensures r.0 == ResetContent && "refresh" in body && body["refresh"].Some? ==>
              r.1 == revoked + {parse(body["refresh"].value).value}
    ensures r.0 != ResetContent ==> r.0 == BadRequest && r.1 == revoked
  {
    if "refresh" !in body then (BadRequest, revoked)
    else
      match body["refresh"]
      case None => (ResetContent, revoked + {newJti})
      case Some(token) =>
        match parse(token)
        case None => (BadRequest, revoked)
        case Some(jti) =>
          if jti in revoked then (BadRequest, revoked)
          else (ResetContent, revoked + {jti})
  }

  /** A blacklisted token stays blacklisted, whatever the request. */
  lemma BlacklistOnlyGrows(revoked: set<TokenId>, body: Body,
                           parse: string -> Option<TokenId>, newJti: TokenId)
    ensures revoked <= LogoutStep(revoked, body, parse, newJti).1
  {
  }

  /** Logging out twice with the same token: the second request is refused
      and the blacklist ends as after the first. A null token is the
      exception: each request blacklists a new token and succeeds. */
  lemma SecondLogoutRefused(revoked: set<TokenId>, body: Body,
                            parse: string -> Option<TokenId>, newJti1: TokenId, newJti2: TokenId)
    ensures var first := LogoutStep(revoked, body, parse, newJti1);
            var second := LogoutStep(first.1, body, parse, newJti2);
            "refresh" in body && body["refresh"].Some? ==>
              && (first.0 == ResetContent ==> second.0 == BadRequest)
              && second.1 == first.1
    ensures var first := LogoutStep(revoked, body, parse, newJti1);
            var second := LogoutStep(first.1, body, parse, newJti2);
            "refresh" in body && body["refresh"].None? ==>
              && first.0 == ResetContent && second.0 == ResetContent
              && second.1 == revoked + {newJti1, newJti2}
  {
  }

  /** The blacklist of refresh tokens. */
  class Blacklist {
    var revoked: set<TokenId>

    constructor ()
      ensures revoked == {}
    {
      revoked := {};
    }

    method Post(body: Body, parse: string -> Option<TokenId>, newJti: TokenId) returns (status: nat)
      modifies this
      ensures (status, revoked) == LogoutStep(old(revoked), body, parse, newJti)
    {
      if "refresh" !in body {
        // request.data["refresh"] raises
        return BadRequest;
      }
      var jti := newJti;
      if body["refresh"].Some? {
        var token := parse(body["refresh"].value);
        if token.None? || token.value in revoked {
          // RefreshToken(...) raises
          return BadRequest;
        }
        jti := token.value;
      }
      revoked := revoked + {jti};
      status := ResetContent;
    }
  }
}
