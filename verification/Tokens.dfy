/** Login tokens and the token manager's verdict on them. */
module Tokens {
  import opened Wrappers

  datatype Token = Token(id: string, login: string, expiration: int)

  /** What the token manager answers. */
  datatype Answer = NoToken | ExpiredToken | Valid(token: Token)

  /** The manager's verdict on a stored token: expired strictly before now. */
  function Judge(found: Option<Token>, now: int): Answer {
    match found
    case None => NoToken
    case Some(t) => if t.expiration < now then ExpiredToken else Valid(t)
  }

  type Repository = map<string, Token>

  function Lookup(repo: Repository, id: string): Option<Token> {
    if id in repo then Some(repo[id]) else None
  }
}
