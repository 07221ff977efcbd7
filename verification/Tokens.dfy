/** Login tokens under concurrent requests and logins (internal/service/service.go, the token tables and
    the authentication interceptor; internal/service/oauth2.go, the token replacement). Each locked
    section is one step, and so is each unlocked read of an expiry; the steps of any number of requests
    and logins interleave, and the clock may advance between any two. */
module Tokens {
  import opened Wrappers

  type Token = string
  type Ref = nat

  // tokenInfo: no expiry for the tokens of configured users.
  datatype Info = Info(user: string, expires: Option<int>)

  // Where a request stands. `Found` holds the entry that the lookup returned, even after it is replaced.
  datatype Phase =
    | Arrived
    | Found(ref: Ref)
    | Deleting(ref: Ref)
    | Sliding(ref: Ref)
    | Accepted(user: string)
    | Rejected(expired: bool)

  datatype Request = Request(token: Token, phase: Phase)

  // A login that has generated its token and computed its expiry, but not entered it yet.
  datatype Login = Login(user: string, token: Token, expires: int)

  /** `infos` holds every token entry ever made (entries outlive their place in the table); `issued` is
      history: every token that was configured or generated. */
  datatype State = State(
    now: int, tokens: map<Token, Ref>, users: map<string, Token>, infos: map<Ref, Info>,
    requests: map<nat, Request>, logins: map<nat, Login>, issued: set<Token>)

  // The loop of New: one entry after the other, in the order in which the user table is iterated; a token
  // that several users share ends up with the entry of the last of them.
  function EnterTokens(users: map<string, Token>, order: seq<string>): (r: map<Token, Ref>)
    requires forall u :: u in order ==> u in users
  {
    if order == [] then map[]
    else
      var last := |order| - 1;
      EnterTokens(users, order[..last])[users[order[last]] := last]
  }

  function EnterInfos(order: seq<string>): (r: map<Ref, Info>)
    ensures forall i: nat :: i in r <==> i < |order|
    ensures forall i: nat :: i < |order| ==> r[i] == Info(order[i], None)
  {
    map i: nat | i < |order| :: Info(order[i], None)
  }

  // `order` runs over the configured users; the administrator, who is entered once more before the loop,
  // occurs twice.
  ghost predicate EntersAll(users: map<string, Token>, order: seq<string>) {
    forall u :: u in order <==> u in users
  }

  // New: the configured users' tokens, entered in any order; no requests and no logins yet.
  ghost predicate Initial(st: State) {
    exists order :: EntersAll(st.users, order) && Entered(st, order)
  }

  ghost predicate Entered(st: State, order: seq<string>)
    requires EntersAll(st.users, order)
  {
    && st.tokens == EnterTokens(st.users, order) && st.infos == EnterInfos(order)
    && st.requests == map[] && st.logins == map[] && st.issued == st.tokens.Keys
  }

  // ----- Steps -----

  ghost predicate Tick(st: State, st': State) {
    st.now <= st'.now && st' == st.(now := st'.now)
  }

  ghost predicate Arrive(st: State, st': State, id: nat, token: Token) {
    id !in st.requests && st' == st.(requests := st.requests[id := Request(token, Arrived)])
  }

  function WithPhase(st: State, id: nat, phase: Phase): State
    requires id in st.requests
  {
    st.(requests := st.requests[id := st.requests[id].(phase := phase)])
  }

  function IsExpired(info: Info, now: int): bool {
    info.expires.Some? && now > info.expires.value
  }

  // The next step of a request.
  function Serve(st: State, ttl: int, id: nat): State
    requires id in st.requests
  {
    var token := st.requests[id].token;
    match st.requests[id].phase
    case Arrived => WithPhase(st, id, if token in st.tokens then Found(st.tokens[token]) else Rejected(false))
    case Found(ref) =>
      if ref !in st.infos then st
      else if IsExpired(st.infos[ref], st.now) then WithPhase(st, id, Deleting(ref))
      else if st.infos[ref].expires.Some? then WithPhase(st, id, Sliding(ref))
      else WithPhase(st, id, Accepted(st.infos[ref].user))
    case Deleting(ref) => WithPhase(st.(tokens := st.tokens - {token}), id, Rejected(true))
    case Sliding(ref) =>
      if ref !in st.infos then st
      else
        var info := st.infos[ref].(expires := Some(st.now + ttl));
        WithPhase(st.(infos := st.infos[ref := info]), id, Accepted(info.user))
    case Accepted(_) => st
    case Rejected(_) => st
  }

  // A login generates a random token, different from all before, and computes its expiry.
  ghost predicate Generate(st: State, st': State, ttl: int, id: nat, user: string, token: Token) {
    && id !in st.logins && token !in st.issued
    && st' == st.(logins := st.logins[id := Login(user, token, st.now + ttl)], issued := st.issued + {token})
  }

  // The locked replacement: the user's old token goes, the new one takes its place.
  ghost predicate Replace(st: State, st': State, id: nat, ref: Ref) {
    && id in st.logins && ref !in st.infos
    && var l := st.logins[id];
       var kept := if l.user in st.users then st.tokens - {st.users[l.user]} else st.tokens;
       st' == st.(
         tokens := kept[l.token := ref], users := st.users[l.user := l.token],
         infos := st.infos[ref := Info(l.user, Some(l.expires))], logins := st.logins - {id})
  }

  ghost predicate Step(st: State, st': State, ttl: int) {
    || Tick(st, st')
    || (exists id, token :: Arrive(st, st', id, token))
    || (exists id :: id in st.requests && st' == Serve(st, ttl, id))
    || (exists id, user, token :: Generate(st, st', ttl, id, user, token))
    || (exists id, ref :: Replace(st, st', id, ref))
  }

  ghost predicate IsRun(run: seq<State>, ttl: int) {
    run != [] && Initial(run[0]) && forall i :: 0 < i < |run| ==> Step(run[i - 1], run[i], ttl)
  }

  // ----- What every reachable state keeps -----

  // A live token is its user's current one.
  ghost predicate LiveIsCurrent(st: State, t: Token)
    requires t in st.tokens
  {
    st.tokens[t] in st.infos && st.infos[st.tokens[t]].user in st.users && st.users[st.infos[st.tokens[t]].user] == t
  }

  // Issued, not in the table, and in no login's hands: such a token is never seen again.
  ghost predicate Spent(st: State, t: Token) {
    t in st.issued && t !in st.tokens && forall id :: id in st.logins ==> st.logins[id].token != t
  }

  ghost predicate PendingApart(st: State) {
    && (forall id :: id in st.logins ==> st.logins[id].token in st.issued && st.logins[id].token !in st.tokens)
    && (forall id, u :: id in st.logins && u in st.users ==> st.users[u] != st.logins[id].token)
    && (forall id, id' :: id in st.logins && id' in st.logins && id != id' ==>
         st.logins[id].token != st.logins[id'].token)
  }

  ghost predicate RequestOk(st: State, r: Request) {
    && (r.phase.Found? || r.phase.Deleting? || r.phase.Sliding? ==>
          r.phase.ref in st.infos && r.token in st.issued && forall id :: id in st.logins ==>
            st.logins[id].token != r.token)
    && (r.phase.Sliding? ==> st.infos[r.phase.ref].expires.Some?)
    && (r.phase == Rejected(true) ==> Spent(st, r.token))
  }

  ghost predicate TokensOk(st: State) {
    && (forall t :: t in st.tokens ==> LiveIsCurrent(st, t) && t in st.issued)
    && (forall u :: u in st.users ==> st.users[u] in st.issued)
  }

  ghost predicate RequestsOk(st: State) {
    forall id :: id in st.requests ==> RequestOk(st, st.requests[id])
  }

  ghost predicate ExpiriesOk(st: State, ttl: int) {
    && (forall r :: r in st.infos && st.infos[r].expires.Some? ==> st.infos[r].expires.value <= st.now + ttl)
    && (forall id :: id in st.logins ==> st.logins[id].expires <= st.now + ttl)
  }

  ghost predicate StateOk(st: State, ttl: int) {
    TokensOk(st) && PendingApart(st) && RequestsOk(st) && ExpiriesOk(st, ttl)
  }

  // Whatever the order, a configured token is live exactly when it is some user's, and its entry is that
  // of a user whose token it is - the last one entered, when users share it.
  lemma {:induction false} EnteredTokens(users: map<string, Token>, order: seq<string>)
    requires forall u :: u in order ==> u in users
    ensures
      var tokens := EnterTokens(users, order);
      && (forall i :: 0 <= i < |order| ==> users[order[i]] in tokens)
      && (forall t :: t in tokens ==> IsLast(users, order, t, tokens[t]))
  {
    if order != [] {
      var last := |order| - 1;
      var before, tokens := EnterTokens(users, order[..last]), EnterTokens(users, order);
      EnteredTokens(users, order[..last]);
      forall i | 0 <= i < |order|
        ensures users[order[i]] in tokens
      {
        if i < last {
          assert users[order[..last][i]] in before;
        }
      }
      forall t | t in tokens
        ensures IsLast(users, order, t, tokens[t])
      {
        if t != users[order[last]] {
          assert IsLast(users, order[..last], t, before[t]);
        }
      }
    }
  }

  // Position `i` is the last at which a user with token `t` was entered.
  ghost predicate IsLast(users: map<string, Token>, order: seq<string>, t: Token, i: nat)
    requires forall u :: u in order ==> u in users
  {
    i < |order| && users[order[i]] == t && forall j :: i < j < |order| ==> users[order[j]] != t
  }

  lemma InitialCurrent(st: State)
    requires Initial(st)
    ensures TokensOk(st) && forall r :: r in st.infos ==> st.infos[r].expires == None
    ensures forall t :: t in st.tokens <==> exists u :: u in st.users && st.users[u] == t
  {
    var order :| EntersAll(st.users, order) && Entered(st, order);
    EnteredTokens(st.users, order);
    forall t | t in st.tokens
      ensures LiveIsCurrent(st, t) && exists u :: u in st.users && st.users[u] == t
    {
      assert IsLast(st.users, order, t, st.tokens[t]);
      assert order[st.tokens[t]] in order;
    }
    forall u | u in st.users
      ensures st.users[u] in st.tokens
    {
      assert u in order;
      var i :| 0 <= i < |order| && order[i] == u;
    }
  }

  lemma InitialOk(st: State, ttl: int)
    requires Initial(st)
    ensures StateOk(st, ttl)
  {
    InitialCurrent(st);
    hide TokensOk, EnterTokens, EnterInfos;
  }

  // What serving a request leaves alone: it only takes entries out of the table and moves expiries on.
  ghost predicate Served(st: State, st': State, ttl: int, id: nat)
    requires id in st.requests
  {
    && st'.now == st.now && st'.users == st.users && st'.logins == st.logins && st'.issued == st.issued
    && (forall t :: t in st'.tokens ==> t in st.tokens && st'.tokens[t] == st.tokens[t])
    && st'.infos.Keys == st.infos.Keys
    && (forall r :: r in st.infos ==>
          st'.infos[r] == st.infos[r]
            || (st.infos[r].expires.Some? && st'.infos[r] == st.infos[r].(expires := Some(st.now + ttl))))
    && id in st'.requests && st'.requests == st.requests[id := st'.requests[id]]
    && st'.requests[id].token == st.requests[id].token
  }

  // An entry whose request waits to slide it has an expiry: entries never lose theirs.
  lemma ServeShape(st: State, ttl: int, id: nat)
    requires RequestsOk(st) && id in st.requests
    ensures Served(st, Serve(st, ttl, id), ttl, id)
  {
    var st' := Serve(st, ttl, id);
    var r := st.requests[id];
    assert RequestOk(st, r);
    match r.phase
    case Sliding(ref) =>
      assert st'.infos == st.infos[ref := st.infos[ref].(expires := Some(st.now + ttl))];
    case _ =>
  }

  lemma ServedRequestOk(st: State, ttl: int, id: nat)
    requires TokensOk(st) && PendingApart(st) && RequestsOk(st) && id in st.requests
    requires Served(st, Serve(st, ttl, id), ttl, id)
    ensures RequestOk(Serve(st, ttl, id), Serve(st, ttl, id).requests[id])
  {
    hide Served;
    assert RequestOk(st, st.requests[id]);
    assert Serve(st, ttl, id).logins == st.logins;
  }

  lemma ServeKeeps(st: State, ttl: int, id: nat)
    requires StateOk(st, ttl) && id in st.requests
    ensures StateOk(Serve(st, ttl, id), ttl)
  {
    hide Serve;
    var st' := Serve(st, ttl, id);
    ServeShape(st, ttl, id);
    ServedRequestOk(st, ttl, id);
    ServedKeepsTables(st, st', ttl, id);
    hide TokensOk, PendingApart, ExpiriesOk;
    forall x | x in st'.requests
      ensures RequestOk(st', st'.requests[x])
    {
      if x != id {
        assert RequestOk(st, st.requests[x]);
      }
    }
  }

  lemma ServedKeepsTables(st: State, st': State, ttl: int, id: nat)
    requires TokensOk(st) && PendingApart(st) && ExpiriesOk(st, ttl) && id in st.requests && Served(st, st', ttl, id)
    ensures TokensOk(st') && PendingApart(st') && ExpiriesOk(st', ttl)
  {
    forall t | t in st'.tokens
      ensures LiveIsCurrent(st', t)
    {
      assert LiveIsCurrent(st, t);
    }
  }

  lemma GenerateKeeps(st: State, st': State, ttl: int, id: nat, user: string, token: Token)
    requires StateOk(st, ttl) && Generate(st, st', ttl, id, user, token)
    ensures StateOk(st', ttl)
  {
    forall t | t in st'.tokens
      ensures LiveIsCurrent(st', t)
    {
      assert LiveIsCurrent(st, t);
    }
    forall x | x in st'.requests
      ensures RequestOk(st', st'.requests[x])
    {
      assert RequestOk(st, st.requests[x]);
    }
  }

  lemma ReplaceKeepsTokens(st: State, st': State, id: nat, ref: Ref)
    requires TokensOk(st) && PendingApart(st) && Replace(st, st', id, ref)
    ensures TokensOk(st')
  {
    forall t | t in st'.tokens
      ensures LiveIsCurrent(st', t) && t in st'.issued
    {
      if t != st.logins[id].token {
        assert LiveIsCurrent(st, t);
      }
    }
  }

  lemma ReplaceKeepsRequests(st: State, st': State, id: nat, ref: Ref)
    requires RequestsOk(st) && Replace(st, st', id, ref)
    ensures RequestsOk(st')
  {
    forall x | x in st'.requests
      ensures RequestOk(st', st'.requests[x])
    {
      assert RequestOk(st, st.requests[x]);
    }
  }

  lemma ReplaceKeepsPending(st: State, st': State, id: nat, ref: Ref)
    requires PendingApart(st) && Replace(st, st', id, ref)
    ensures PendingApart(st')
  {
  }

  lemma ReplaceKeepsExpiries(st: State, st': State, ttl: int, id: nat, ref: Ref)
    requires ExpiriesOk(st, ttl) && Replace(st, st', id, ref)
    ensures ExpiriesOk(st', ttl)
  {
  }

  lemma ReplaceKeeps(st: State, st': State, ttl: int, id: nat, ref: Ref)
    requires StateOk(st, ttl) && Replace(st, st', id, ref)
    ensures StateOk(st', ttl)
  {
    hide TokensOk, PendingApart, RequestsOk, ExpiriesOk, Replace;
    ReplaceKeepsTokens(st, st', id, ref);
    ReplaceKeepsRequests(st, st', id, ref);
    ReplaceKeepsPending(st, st', id, ref);
    ReplaceKeepsExpiries(st, st', ttl, id, ref);
  }

  lemma QuietKeeps(st: State, st': State, ttl: int)
    requires StateOk(st, ttl) && (Tick(st, st') || exists id, token :: Arrive(st, st', id, token))
    ensures StateOk(st', ttl)
  {
    forall t | t in st'.tokens
      ensures LiveIsCurrent(st', t) && t in st'.issued
    {
      assert LiveIsCurrent(st, t);
    }
    forall x | x in st'.requests
      ensures RequestOk(st', st'.requests[x])
    {
      if x in st.requests {
        assert RequestOk(st, st.requests[x]);
      }
    }
  }

  lemma StepKeeps(st: State, st': State, ttl: int)
    requires StateOk(st, ttl) && Step(st, st', ttl)
    ensures StateOk(st', ttl)
  {
    hide StateOk, Serve, Generate, Replace, Tick, Arrive;
    if id :| id in st.requests && st' == Serve(st, ttl, id) {
      ServeKeeps(st, ttl, id);
    } else if id, user, token :| Generate(st, st', ttl, id, user, token) {
      GenerateKeeps(st, st', ttl, id, user, token);
    } else if id, ref :| Replace(st, st', id, ref) {
      ReplaceKeeps(st, st', ttl, id, ref);
    } else {
      QuietKeeps(st, st', ttl);
    }
  }

  lemma {:induction false} RunKeeps(run: seq<State>, ttl: int, i: nat)
    requires IsRun(run, ttl) && i < |run|
    ensures StateOk(run[i], ttl)
  {
    hide StateOk, Step, Initial;
    if i == 0 {
      InitialOk(run[0], ttl);
    } else {
      RunKeeps(run, ttl, i - 1);
      StepKeeps(run[i - 1], run[i], ttl);
    }
  }

  /** In every state of every run a user has at most one live token, the one the user table names. */
  lemma OneLiveToken(run: seq<State>, ttl: int, i: nat, t: Token, t': Token)
    requires IsRun(run, ttl) && i < |run| && t in run[i].tokens && t' in run[i].tokens
    ensures
      var st := run[i];
      && st.tokens[t] in st.infos && st.tokens[t'] in st.infos
      && var u := st.infos[st.tokens[t]].user;
         && u in st.users && st.users[u] == t
         && (st.infos[st.tokens[t']].user == u ==> t' == t)
  {
    RunKeeps(run, ttl, i);
    assert LiveIsCurrent(run[i], t) && LiveIsCurrent(run[i], t');
  }

  // ----- Tokens that are gone stay gone -----

  lemma SpentStays(st: State, st': State, ttl: int, t: Token)
    requires RequestsOk(st) && Step(st, st', ttl) && Spent(st, t)
    ensures Spent(st', t)
  {
    hide Serve, RequestsOk, Served, Generate, Replace;
    if id :| id in st.requests && st' == Serve(st, ttl, id) {
      ServeShape(st, ttl, id);
      ServedSpent(st, st', ttl, id, t);
    } else if id, user, token :| Generate(st, st', ttl, id, user, token) {
      GeneratedSpent(st, st', ttl, id, user, token, t);
    } else if id, ref :| Replace(st, st', id, ref) {
      ReplacedSpent(st, st', id, ref, t);
    }
  }

  lemma ServedSpent(st: State, st': State, ttl: int, id: nat, t: Token)
    requires id in st.requests && Served(st, st', ttl, id) && Spent(st, t)
    ensures Spent(st', t)
  {
  }

  lemma GeneratedSpent(st: State, st': State, ttl: int, id: nat, user: string, token: Token, t: Token)
    requires Generate(st, st', ttl, id, user, token) && Spent(st, t)
    ensures Spent(st', t)
  {
  }

  lemma ReplacedSpent(st: State, st': State, id: nat, ref: Ref, t: Token)
    requires Replace(st, st', id, ref) && Spent(st, t)
    ensures Spent(st', t)
  {
  }

  // A request for token `t` that has not got past the lookup.
  ghost predicate NotServed(st: State, id: nat, t: Token) {
    id in st.requests && st.requests[id].token == t ==>
      st.requests[id].phase.Arrived? || st.requests[id].phase.Rejected?
  }

  lemma ServeSpent(st: State, ttl: int, t: Token, id: nat, x: nat)
    requires Spent(st, t) && NotServed(st, id, t) && x in st.requests
    ensures NotServed(Serve(st, ttl, x), id, t)
  {
    if x != id {
      assert Serve(st, ttl, x).requests == st.requests[x := Serve(st, ttl, x).requests[x]];
    }
  }

  lemma SpentIsRefused(st: State, st': State, ttl: int, t: Token, id: nat)
    requires Step(st, st', ttl) && Spent(st, t) && NotServed(st, id, t)
    ensures NotServed(st', id, t)
  {
    hide Serve, Spent;
    if x :| x in st.requests && st' == Serve(st, ttl, x) {
      ServeSpent(st, ttl, t, id, x);
    } else if x, user, token :| Generate(st, st', ttl, x, user, token) {
    } else if x, ref :| Replace(st, st', x, ref) {
    }
  }

  /** Once a token is spent, no request that had not been looked up by then is ever accepted with it. */
  lemma {:induction false} SpentNeverServes(run: seq<State>, ttl: int, i: nat, j: nat, t: Token, id: nat)
    requires IsRun(run, ttl) && i <= j < |run| && Spent(run[i], t) && NotServed(run[i], id, t)
    ensures Spent(run[j], t) && NotServed(run[j], id, t)
    decreases j
  {
    hide Step, Initial, Spent, NotServed, RequestsOk, TokensOk, PendingApart, ExpiriesOk;
    if i < j {
      SpentNeverServes(run, ttl, i, j - 1, t, id);
      RunKeeps(run, ttl, j - 1);
      SpentStays(run[j - 1], run[j], ttl, t);
      SpentIsRefused(run[j - 1], run[j], ttl, t, id);
    }
  }

  // A re-login spends the user's old token.
  lemma ReloginSpends(run: seq<State>, ttl: int, i: nat, id: nat, ref: Ref)
    requires IsRun(run, ttl) && i + 1 < |run| && Replace(run[i], run[i + 1], id, ref)
    requires run[i].logins[id].user in run[i].users
    ensures Spent(run[i + 1], run[i].users[run[i].logins[id].user])
  {
    RunKeeps(run, ttl, i);
  }

  // A rejection for expiry spends the token.
  lemma ExpirySpends(run: seq<State>, ttl: int, i: nat, id: nat)
    requires IsRun(run, ttl) && i < |run| && id in run[i].requests && run[i].requests[id].phase == Rejected(true)
    ensures Spent(run[i], run[i].requests[id].token)
  {
    RunKeeps(run, ttl, i);
    assert RequestOk(run[i], run[i].requests[id]);
  }

  // This step enters a new token for the user whose current token is `t`.
  ghost predicate Relogs(st: State, st': State, t: Token) {
    exists id, ref :: Replace(st, st', id, ref) && st.logins[id].user in st.users && st.users[st.logins[id].user] == t
  }

  lemma RelogSpends(run: seq<State>, ttl: int, i: nat, t: Token)
    requires IsRun(run, ttl) && 0 < i < |run| && Relogs(run[i - 1], run[i], t)
    ensures Spent(run[i], t)
  {
    hide IsRun, Spent;
    var x, ref :| Replace(run[i - 1], run[i], x, ref) && run[i - 1].logins[x].user in run[i - 1].users
                  && run[i - 1].users[run[i - 1].logins[x].user] == t;
    ReloginSpends(run, ttl, i - 1, x, ref);
  }

  // Some request with token `t` has been answered "token expired".
  ghost predicate ExpiryAnswered(st: State, t: Token) {
    exists id :: id in st.requests && st.requests[id] == Request(t, Rejected(true))
  }

  /** After a re-login, or after a rejection for expiry, no request that arrives later is accepted with
      the old token. */
  lemma OldTokenRefused(run: seq<State>, ttl: int, i: nat, j: nat, t: Token, id: nat)
    requires IsRun(run, ttl) && 0 < i <= j < |run| && id !in run[i].requests && id in run[j].requests
    requires run[j].requests[id].token == t
    requires Relogs(run[i - 1], run[i], t) || ExpiryAnswered(run[i], t)
    ensures run[j].requests[id].phase.Arrived? || run[j].requests[id].phase.Rejected?
  {
    hide IsRun, Spent;
    if Relogs(run[i - 1], run[i], t) {
      RelogSpends(run, ttl, i, t);
    } else {
      var x :| x in run[i].requests && run[i].requests[x] == Request(t, Rejected(true));
      ExpirySpends(run, ttl, i, x);
    }
    SpentNeverServes(run, ttl, i, j, t, id);
  }

  // ----- The table as one request sees it -----

  datatype Answer = Granted(user: string) | Refused(expired: bool)

  // What the token table says.
  ghost function TableAt(st: State): map<Token, Info> {
    map t | t in st.tokens && st.tokens[t] in st.infos :: st.infos[st.tokens[t]]
  }

  // The interceptor's answer to a token, with the clock at the expiry check.
  ghost function AnswerTo(table: map<Token, Info>, checked: int, token: Token): Answer {
    if token !in table then Refused(false)
    else if IsExpired(table[token], checked) then Refused(true)
    else Granted(table[token].user)
  }

  // An unknown token changes nothing, an expired one leaves the table, and one in force that can expire is
  // renewed; `renewed` is the clock at the renewal.
  ghost function TableAfter(table: map<Token, Info>, ttl: int, checked: int, renewed: int,
                            token: Token): map<Token, Info> {
    match AnswerTo(table, checked, token)
    case Refused(expired) => if expired then table - {token} else table
    case Granted(_) =>
      if token in table && table[token].expires.Some? then table[token := table[token].(expires := Some(renewed + ttl))]
      else table
  }

  // A login puts the new token in the place of the user's old one.
  ghost function TableAfterLogin(table: map<Token, Info>, users: map<string, Token>, user: string, token: Token,
                                 expires: int): map<Token, Info> {
    (if user in users then table - {users[user]} else table)[token := Info(user, Some(expires))]
  }

  // A token in force is granted to its user, and stays in force for a lifetime from its renewal, or for ever
  // if it has no expiry; an expired one is refused, and unknown from then on. No other token is concerned.
  lemma AnswersAfter(table: map<Token, Info>, ttl: int, checked: int, renewed: int, token: Token, later: int,
                     other: Token)
    requires other != token
    ensures
      var after := TableAfter(table, ttl, checked, renewed, token);
      && AnswerTo(after, later, other) == AnswerTo(table, later, other)
      && if token !in table then after == table && AnswerTo(table, checked, token) == Refused(false)
         else if table[token].expires.Some? && table[token].expires.value < checked then
           AnswerTo(table, checked, token) == Refused(true) && AnswerTo(after, later, token) == Refused(false)
         else
           && AnswerTo(table, checked, token) == Granted(table[token].user)
           && AnswerTo(after, later, token) ==
              if table[token].expires.Some? && renewed + ttl < later then Refused(true) else Granted(table[token].user)
  {
  }

  // A token is in force for a lifetime from its login; the one that it replaces is unknown.
  lemma AnswersAfterLogin(table: map<Token, Info>, users: map<string, Token>, ttl: int, user: string, token: Token,
                          now: int, later: int)
    requires forall u :: u in users ==> users[u] != token
    ensures
      var after := TableAfterLogin(table, users, user, token, now + ttl);
      && AnswerTo(after, later, token) == (if later <= now + ttl then Granted(user) else Refused(true))
      && (user in users ==> AnswerTo(after, later, users[user]) == Refused(false))
      && forall t :: t != token && (user in users ==> t != users[user]) ==>
           AnswerTo(after, later, t) == AnswerTo(table, later, t)
  {
  }

  // The tokens of these users, each with the entry of one whose token it is, without an expiry.
  ghost predicate ConfiguredTable(table: map<Token, Info>, users: map<string, Token>) {
    && (forall t :: t in table <==> exists u :: u in users && users[u] == t)
    && (forall t :: t in table ==>
          table[t].expires == None && table[t].user in users && users[table[t].user] == t)
  }

  lemma InitialTable(st: State)
    requires Initial(st)
    ensures ConfiguredTable(TableAt(st), st.users)
  {
    InitialCurrent(st);
    hide Initial;
    forall t | t in st.tokens
      ensures t in TableAt(st)
    {
      assert LiveIsCurrent(st, t);
    }
  }

  // No other token shares the entry of a live one.
  lemma OwnEntry(st: State, token: Token)
    requires TokensOk(st) && token in st.tokens
    ensures token in TableAt(st) && TableAt(st)[token] == st.infos[st.tokens[token]]
    ensures forall t :: t in st.tokens && t != token ==> st.tokens[t] != st.tokens[token]
  {
    assert LiveIsCurrent(st, token);
    forall t | t in st.tokens && t != token
      ensures st.tokens[t] != st.tokens[token]
    {
      assert LiveIsCurrent(st, t);
    }
  }

  lemma TableWithInfo(st: State, token: Token, infos: map<Ref, Info>)
    requires TokensOk(st) && token in st.tokens && st.tokens[token] in infos
    requires infos == st.infos[st.tokens[token] := infos[st.tokens[token]]]
    ensures TableAt(st.(infos := infos)) == TableAt(st)[token := infos[st.tokens[token]]]
  {
    OwnEntry(st, token);
    hide TokensOk;
  }

  lemma SameTable(st: State, st': State)
    requires st'.tokens == st.tokens && st'.infos == st.infos
    ensures TableAt(st') == TableAt(st)
  {
  }

  // A request at a later clock reading.
  function ServeAt(st: State, ttl: int, now: int, id: nat): State
    requires id in st.requests
  {
    Serve(st.(now := now), ttl, id)
  }

  lemma LookupAnswers(st: State, ttl: int, id: nat)
    requires TokensOk(st) && id in st.requests && st.requests[id].phase == Arrived
    ensures
      var token := st.requests[id].token;
      var phase := if token in st.tokens then Found(st.tokens[token]) else Rejected(false);
      Serve(st, ttl, id) == WithPhase(st, id, phase) && (token in TableAt(st) <==> token in st.tokens)
  {
    var token := st.requests[id].token;
    if token in st.tokens {
      OwnEntry(st, token);
    }
  }

  // A request that found the entry of its live token, at the expiry check and at what follows.
  lemma FoundAnswers(st: State, ttl: int, id: nat, checked: int, renewed: int)
    requires TokensOk(st) && id in st.requests && st.requests[id].token in st.tokens
    requires st.requests[id].phase == Found(st.tokens[st.requests[id].token])
    ensures
      var token, decided := st.requests[id].token, ServeAt(st, ttl, checked, id);
      && id in decided.requests
      && var st' := ServeAt(decided, ttl, renewed, id);
         && id in st'.requests && st'.users == st.users
         && TableAt(st') == TableAfter(TableAt(st), ttl, checked, renewed, token)
         && st'.requests[id].phase == PhaseOf(AnswerTo(TableAt(st), checked, token))
  {
    var token := st.requests[id].token;
    var ref := st.tokens[token];
    OwnEntry(st, token);
    var decided := ServeAt(st, ttl, checked, id);
    var st' := ServeAt(decided, ttl, renewed, id);
    assert LiveIsCurrent(st, token);
    hide TokensOk, TableAt;
    if IsExpired(st.infos[ref], checked) {
      assert st'.tokens == st.tokens - {token} && st'.infos == st.infos;
      TableDropped(st, st', token);
    } else if st.infos[ref].expires.Some? {
      assert st'.tokens == st.tokens && st'.infos == st.infos[ref := st.infos[ref].(expires := Some(renewed + ttl))];
      TableWithInfo(st, token, st'.infos);
      SameTable(st.(infos := st'.infos), st');
    } else {
      SameTable(st, st');
    }
  }

  lemma TableDropped(st: State, st': State, token: Token)
    requires st'.tokens == st.tokens - {token} && st'.infos == st.infos
    ensures TableAt(st') == TableAt(st) - {token}
  {
  }

  function PhaseOf(answer: Answer): Phase {
    match answer
    case Granted(user) => Accepted(user)
    case Refused(expired) => Rejected(expired)
  }

  /** Three steps of a request, with nothing but the clock between them, answer it and change the table as
      the interceptor's whole call does (module AuthService). */
  lemma SoloRequest(st: State, ttl: int, id: nat, checked: int, renewed: int)
    requires StateOk(st, ttl) && id in st.requests && st.requests[id].phase == Arrived
    ensures
      var token, found := st.requests[id].token, Serve(st, ttl, id);
      && id in found.requests
      && var decided := ServeAt(found, ttl, checked, id);
         && id in decided.requests
         && var st' := ServeAt(decided, ttl, renewed, id);
            && id in st'.requests && st'.users == st.users
            && TableAt(st') == TableAfter(TableAt(st), ttl, checked, renewed, token)
            && st'.requests[id].phase == PhaseOf(AnswerTo(TableAt(st), checked, token))
  {
    LookupAnswers(st, ttl, id);
    var found := Serve(st, ttl, id);
    assert TokensOk(found) by {
      hide Serve;
      ServeKeeps(st, ttl, id);
    }
    SameTable(st, found);
    hide TokensOk, PendingApart, RequestsOk, ExpiriesOk, TableAt;
    if st.requests[id].token in st.tokens {
      hide Serve;
      FoundAnswers(found, ttl, id, checked, renewed);
    } else {
      RejectedAnswers(found, ttl, id, checked, renewed);
    }
  }

  lemma RejectedAnswers(st: State, ttl: int, id: nat, checked: int, renewed: int)
    requires id in st.requests && st.requests[id].phase.Rejected?
    ensures
      var decided := ServeAt(st, ttl, checked, id);
      id in decided.requests && ServeAt(decided, ttl, renewed, id) == st.(now := renewed)
    ensures TableAt(st.(now := renewed)) == TableAt(st)
  {
  }

  lemma TableEntered(st: State, token: Token, ref: Ref, info: Info)
    requires ref !in st.infos && forall t :: t in st.tokens ==> st.tokens[t] in st.infos
    ensures
      TableAt(st.(tokens := st.tokens[token := ref], infos := st.infos[ref := info])) == TableAt(st)[token := info]
  {
  }

  lemma LiveEntries(st: State)
    requires TokensOk(st)
    ensures forall t :: t in st.tokens ==> st.tokens[t] in st.infos
  {
    forall t | t in st.tokens
      ensures st.tokens[t] in st.infos
    {
      assert LiveIsCurrent(st, t);
    }
  }

  // ... and a login's locked step changes the tables as the whole call does.
  lemma SoloLogin(st: State, st': State, ttl: int, id: nat, ref: Ref)
    requires StateOk(st, ttl) && Replace(st, st', id, ref)
    ensures
      var l := st.logins[id];
      && st'.users == st.users[l.user := l.token]
      && TableAt(st') == TableAfterLogin(TableAt(st), st.users, l.user, l.token, l.expires)
  {
    LiveEntries(st);
    hide StateOk, TableAt;
    var l := st.logins[id];
    var mid := if l.user in st.users then st.(tokens := st.tokens - {st.users[l.user]}) else st;
    if l.user in st.users {
      TableDropped(st, mid, st.users[l.user]);
    }
    TableEntered(mid, l.token, ref, Info(l.user, Some(l.expires)));
    SameTable(mid.(tokens := mid.tokens[l.token := ref], infos := mid.infos[ref := Info(l.user, Some(l.expires))]),
      st');
  }
}
