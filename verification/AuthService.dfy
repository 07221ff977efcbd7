/** The token tables as the service holds them (internal/service/service.go, internal/service/oauth2.go):
    two maps and the shared, mutable token entries, changed in place. The interleaving of the locked
    sections is module Tokens; here each method runs alone. */
module AuthService {
  import opened Wrappers
  import opened Tokens

  class TokenInfo {
    const user: string
    var expires: Option<int>

    constructor (user: string, expires: Option<int>)
      ensures this.user == user && this.expires == expires
    {
      this.user, this.expires := user, expires;
    }
  }

  ghost function TableOf(tokens: map<Token, TokenInfo>): map<Token, Info>
    reads tokens.Values
  {
    map t | t in tokens :: Info(tokens[t].user, tokens[t].expires)
  }

  lemma TableWithout(tokens: map<Token, TokenInfo>, token: Token)
    ensures TableOf(tokens - {token}) == TableOf(tokens) - {token}
  {
  }

  lemma TableWith(tokens: map<Token, TokenInfo>, token: Token, info: TokenInfo)
    ensures TableOf(tokens[token := info]) == TableOf(tokens)[token := Info(info.user, info.expires)]
  {
  }

  class Service {
    const ttl: int
    var tokens: map<Token, TokenInfo>
    var users: map<string, Token>

    // What the token table says.
    ghost function Table(): map<Token, Info>
      reads this, tokens.Values
    {
      TableOf(tokens)
    }

    // Every live token is its user's current one, so no two of them share an entry.
    ghost predicate Valid()
      reads this, tokens.Values
    {
      forall t :: t in tokens ==> tokens[t].user in users && users[tokens[t].user] == t
    }

    /** Enters the configured users' tokens in any order, none of them with an expiry. */
    constructor (ttl: int, configured: map<string, Token>, admin: Token)
      ensures Valid() && this.ttl == ttl
      ensures users == (if admin != "" then configured["admin" := admin] else configured)
      ensures ConfiguredTable(Table(), users)
      ensures fresh(tokens.Values)
    {
      this.ttl := ttl;
      var names := configured;
      var table: map<Token, TokenInfo> := map[];
      if admin != "" {
        names := names["admin" := admin];
        var info := new TokenInfo("admin", None);
        table := table[admin := info];
      }
      var left := names.Keys;
      while left != {}
        invariant left <= names.Keys
        invariant forall t :: t in table ==> fresh(table[t]) && table[t].expires == None
        invariant forall t :: t in table ==> table[t].user in names && names[table[t].user] == t
        invariant forall u :: u in names && u !in left ==> names[u] in table
      {
        var u :| u in left;
        var info := new TokenInfo(u, None);
        table := table[names[u] := info];
        left := left - {u};
      }
      tokens, users := table, names;
    }

    /** The interceptor on one token: `checked` is the clock at the expiry check, `renewed` the clock at
        the renewal. The answer and the whole table are those of an undisturbed request of the step machine
        (`Tokens.SoloRequest`). */
    method Authenticate(token: Token, checked: int, renewed: int) returns (answer: Answer)
      requires Valid()
      modifies this`tokens, tokens.Values
      ensures Valid() && tokens.Values <= old(tokens.Values)
      ensures answer == AnswerTo(old(Table()), checked, token)
      ensures Table() == TableAfter(old(Table()), ttl, checked, renewed, token)
    {
      if token !in tokens {
        return Refused(false);
      }
      var info := tokens[token];
      if info.expires.Some? && checked > info.expires.value {
        tokens := tokens - {token};
        return Refused(true);
      }
      if info.expires.Some? {
        info.expires := Some(renewed + ttl);
      }
      return Granted(info.user);
    }

    /** A login: the expiry is a lifetime after `now`, the clock when the token was generated; then, in the
        locked section, the user's old token goes and the new one is live and current. A generated token is
        no user's current one. */
    method Login(user: string, token: Token, now: int)
      requires Valid() && forall u :: u in users ==> users[u] != token
      modifies this`tokens, this`users
      ensures Valid() && users == old(users)[user := token] && fresh(tokens.Values - old(tokens.Values))
      ensures Table() == TableAfterLogin(old(Table()), old(users), user, token, now + ttl)
    {
      hide TableOf;
      var expires := now + ttl;
      if user in users {
        TableWithout(tokens, users[user]);
        tokens := tokens - {users[user]};
      }
      var info := new TokenInfo(user, Some(expires));
      TableWith(tokens, token, info);
      tokens := tokens[token := info];
      users := users[user := token];
    }
  }
}
