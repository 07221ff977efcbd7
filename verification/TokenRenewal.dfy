/** The sliding expiry of login tokens (internal/service/service.go): what a renewal is worth while other
    requests with the same token are under way. */
module TokenRenewal {
  import opened Wrappers
  import opened Tokens

  // ----- Sliding expiry -----

  // Entries keep their user; an expiry only moves forward.
  ghost predicate InfosAdvance(st: State, st': State) {
    forall r :: r in st.infos ==>
      && r in st'.infos && st'.infos[r].user == st.infos[r].user
      && (st.infos[r].expires.Some? ==>
           st'.infos[r].expires.Some? && st.infos[r].expires.value <= st'.infos[r].expires.value)
  }

  lemma StepAdvances(st: State, st': State, ttl: int)
    requires StateOk(st, ttl) && Step(st, st', ttl)
    ensures InfosAdvance(st, st')
  {
    hide Serve;
    if id :| id in st.requests && st' == Serve(st, ttl, id) {
      ServeShape(st, ttl, id);
      ServedAdvances(st, st', ttl, id);
    } else if id, user, token :| Generate(st, st', ttl, id, user, token) {
      hide StateOk;
    } else if id, ref :| Replace(st, st', id, ref) {
      hide StateOk;
    }
  }

  lemma ServedAdvances(st: State, st': State, ttl: int, id: nat)
    requires ExpiriesOk(st, ttl) && id in st.requests && Served(st, st', ttl, id)
    ensures InfosAdvance(st, st')
  {
  }

  lemma {:induction false} RunAdvances(run: seq<State>, ttl: int, i: nat, j: nat)
    requires IsRun(run, ttl) && i <= j < |run|
    ensures InfosAdvance(run[i], run[j])
    decreases j
  {
    if i < j {
      hide StateOk, Step, Initial, InfosAdvance;
      RunAdvances(run, ttl, i, j - 1);
      RunKeeps(run, ttl, j - 1);
      StepAdvances(run[j - 1], run[j], ttl);
      AdvanceTransitive(run[i], run[j - 1], run[j]);
    } else {
      hide StateOk, Step, Initial, IsRun;
    }
  }

  lemma AdvanceTransitive(a: State, b: State, c: State)
    requires InfosAdvance(a, b) && InfosAdvance(b, c)
    ensures InfosAdvance(a, c)
  {
  }

  // What a renewal leaves behind.
  lemma Renewed(st: State, ttl: int, a: nat, ref: Ref)
    requires RequestsOk(st) && a in st.requests && st.requests[a].phase == Sliding(ref)
    ensures var st' := Serve(st, ttl, a); ref in st'.infos && st'.infos[ref].expires == Some(st.now + ttl)
  {
    assert RequestOk(st, st.requests[a]);
  }

  // A request that waits with a token to slide or delete its entry: that of the table, if the token is
  // still in it.
  ghost predicate HoldsTableEntry(st: State, r: Request) {
    r.phase.Found? || r.phase.Deleting? || r.phase.Sliding? ==> r.token in st.tokens ==>
      st.tokens[r.token] == r.phase.ref
  }

  ghost predicate EntriesMatch(st: State) {
    forall id :: id in st.requests ==> HoldsTableEntry(st, st.requests[id])
  }

  lemma ServeMatches(st: State, ttl: int, id: nat)
    requires RequestsOk(st) && EntriesMatch(st) && id in st.requests
    ensures EntriesMatch(Serve(st, ttl, id))
  {
    ServeShape(st, ttl, id);
    var st' := Serve(st, ttl, id);
    assert HoldsTableEntry(st, st.requests[id]);
    forall x | x in st'.requests
      ensures HoldsTableEntry(st', st'.requests[x])
    {
      if x != id {
        hide Serve;
        assert HoldsTableEntry(st, st.requests[x]);
      }
    }
  }

  lemma ReplaceMatches(st: State, st': State, id: nat, ref: Ref)
    requires RequestsOk(st) && EntriesMatch(st) && Replace(st, st', id, ref)
    ensures EntriesMatch(st')
  {
    forall x | x in st'.requests
      ensures HoldsTableEntry(st', st'.requests[x])
    {
      assert HoldsTableEntry(st, st.requests[x]) && RequestOk(st, st.requests[x]);
    }
  }

  lemma StepMatches(st: State, st': State, ttl: int)
    requires RequestsOk(st) && EntriesMatch(st) && Step(st, st', ttl)
    ensures EntriesMatch(st')
  {
    hide Serve, RequestsOk, EntriesMatch, Replace, Generate, Tick, Arrive;
    if id :| id in st.requests && st' == Serve(st, ttl, id) {
      ServeMatches(st, ttl, id);
    } else if id, user, token :| Generate(st, st', ttl, id, user, token) {
      SameTableMatches(st, st', ttl);
    } else if id, ref :| Replace(st, st', id, ref) {
      ReplaceMatches(st, st', id, ref);
    } else {
      SameTableMatches(st, st', ttl);
    }
  }

  lemma SameTableMatches(st: State, st': State, ttl: int)
    requires EntriesMatch(st)
    requires Tick(st, st') || (exists id, token :: Arrive(st, st', id, token))
          || (exists id, user, token :: Generate(st, st', ttl, id, user, token))
    ensures EntriesMatch(st')
  {
    forall x | x in st'.requests
      ensures HoldsTableEntry(st', st'.requests[x])
    {
      if x in st.requests {
        assert HoldsTableEntry(st, st.requests[x]);
      }
    }
  }

  lemma {:induction false} RunMatches(run: seq<State>, ttl: int, i: nat)
    requires IsRun(run, ttl) && i < |run|
    ensures EntriesMatch(run[i])
  {
    hide TokensOk, PendingApart, RequestsOk, ExpiriesOk, Step;
    if i == 0 {
      assert EntriesMatch(run[0]);
    } else {
      hide EntriesMatch;
      RunMatches(run, ttl, i - 1);
      RunKeeps(run, ttl, i - 1);
      StepMatches(run[i - 1], run[i], ttl);
    }
  }

  // The step that serves the deletion of this request.
  ghost predicate Deletes(st: State, st': State, ttl: int, t: Token, b: nat) {
    b in st.requests && st.requests[b].token == t && st.requests[b].phase.Deleting? && st' == Serve(st, ttl, b)
  }

  // The two steps that take a token out of the table.
  ghost predicate Drops(st: State, st': State, ttl: int, t: Token) {
    Relogs(st, st', t) || exists b :: Deletes(st, st', ttl, t, b)
  }

  lemma ServeDrops(st: State, ttl: int, t: Token, id: nat)
    requires id in st.requests && t in st.tokens
    ensures t in Serve(st, ttl, id).tokens <==> !(st.requests[id].token == t && st.requests[id].phase.Deleting?)
    ensures t in Serve(st, ttl, id).tokens ==> Serve(st, ttl, id).tokens[t] == st.tokens[t]
  {
  }

  // A token leaves the table exactly by such a step, and then it is spent.
  lemma StepDrops(st: State, st': State, ttl: int, t: Token)
    requires StateOk(st, ttl) && StateOk(st', ttl) && Step(st, st', ttl) && t in st.tokens
    ensures t in st'.tokens <==> !Drops(st, st', ttl, t)
    ensures t in st'.tokens ==> st'.tokens[t] == st.tokens[t]
    ensures t !in st'.tokens ==> Spent(st', t)
  {
    hide Serve, ExpiriesOk, RequestsOk;
    LeavesByDrop(st, st', ttl, t);
    hide Step;
    if b :| Deletes(st, st', ttl, t, b) {
      ServeDrops(st, ttl, t, b);
    }
    if Relogs(st, st', t) {
      RelogDrops(st, st', t);
    }
    if t !in st'.tokens {
      GoneIsSpent(st, st', ttl, t);
    }
  }

  lemma RelogDrops(st: State, st': State, t: Token)
    requires TokensOk(st) && PendingApart(st) && Relogs(st, st', t)
    ensures t !in st'.tokens
  {
  }

  lemma LeavesByDrop(st: State, st': State, ttl: int, t: Token)
    requires TokensOk(st) && PendingApart(st) && Step(st, st', ttl) && t in st.tokens
    ensures Drops(st, st', ttl, t) || (t in st'.tokens && st'.tokens[t] == st.tokens[t])
  {
    hide Serve, TokensOk;
    if id :| id in st.requests && st' == Serve(st, ttl, id) {
      ServeDrops(st, ttl, t, id);
      assert t !in st'.tokens ==> Deletes(st, st', ttl, t, id);
    } else if id, ref :| Replace(st, st', id, ref) {
      var l := st.logins[id];
      assert l.user in st.users && st.users[l.user] == t ==> Relogs(st, st', t);
    }
  }

  lemma GoneIsSpent(st: State, st': State, ttl: int, t: Token)
    requires TokensOk(st) && PendingApart(st) && PendingApart(st') && Drops(st, st', ttl, t) && t in st.tokens
    requires t !in st'.tokens
    ensures Spent(st', t)
  {
    if b :| Deletes(st, st', ttl, t, b) {
    } else {
      hide Serve;
    }
  }

  lemma {:induction false} SpentForever(run: seq<State>, ttl: int, i: nat, j: nat, t: Token)
    requires IsRun(run, ttl) && i <= j < |run| && Spent(run[i], t)
    ensures Spent(run[j], t)
    decreases j
  {
    hide Step, Spent, TokensOk, PendingApart, RequestsOk, ExpiriesOk;
    if i < j {
      SpentForever(run, ttl, i, j - 1, t);
      RunKeeps(run, ttl, j - 1);
      SpentStays(run[j - 1], run[j], ttl, t);
    }
  }

  /** What keeps a token in the table, over any stretch of any run: it is there at the end, with the same
      entry, exactly when no step on the way was a re-login of its user or the deletion of a request with it. */
  lemma {:induction false} StaysInTable(run: seq<State>, ttl: int, i: nat, j: nat, t: Token)
    requires IsRun(run, ttl) && i <= j < |run| && t in run[i].tokens
    ensures t in run[j].tokens <==> forall k :: i < k <= j ==> !Drops(run[k - 1], run[k], ttl, t)
    ensures t in run[j].tokens ==> run[j].tokens[t] == run[i].tokens[t]
    ensures t !in run[j].tokens ==> Spent(run[j], t)
    decreases j
  {
    hide StateOk, Step, Spent, Drops, Initial;
    if i < j {
      StaysInTable(run, ttl, i, j - 1, t);
      RunKeeps(run, ttl, j - 1);
      RunKeeps(run, ttl, j);
      if t in run[j - 1].tokens {
        StepDrops(run[j - 1], run[j], ttl, t);
      } else {
        SpentForever(run, ttl, j - 1, j, t);
        SpentOut(run[j], t);
      }
    }
  }

  lemma SpentOut(st: State, t: Token)
    requires Spent(st, t)
    ensures t !in st.tokens
  {
  }

  // Request `b` waits to delete token `t`.
  ghost predicate Condemns(st: State, t: Token, b: nat) {
    b in st.requests && st.requests[b].token == t && st.requests[b].phase.Deleting?
  }

  // No new deletion of an entry that has not expired is decided on.
  lemma StepCondemns(st: State, st': State, ttl: int, t: Token, ref: Ref, b: nat)
    requires RequestsOk(st) && EntriesMatch(st) && Step(st, st', ttl) && t in st.tokens && st.tokens[t] == ref
    requires ref in st.infos && !IsExpired(st.infos[ref], st.now) && Condemns(st', t, b)
    ensures Condemns(st, t, b)
  {
    hide Serve, RequestsOk, EntriesMatch;
    if id :| id in st.requests && st' == Serve(st, ttl, id) {
      ServeCondemns(st, ttl, t, ref, b, id);
    }
  }

  lemma ServeCondemns(st: State, ttl: int, t: Token, ref: Ref, b: nat, id: nat)
    requires RequestsOk(st) && EntriesMatch(st) && id in st.requests && t in st.tokens && st.tokens[t] == ref
    requires ref in st.infos && !IsExpired(st.infos[ref], st.now) && Condemns(Serve(st, ttl, id), t, b)
    ensures Condemns(st, t, b)
  {
    assert HoldsTableEntry(st, st.requests[id]);
    hide EntriesMatch, RequestsOk;
    if b != id {
      OthersWait(st, ttl, id, b);
    }
  }

  lemma OthersWait(st: State, ttl: int, id: nat, b: nat)
    requires id in st.requests && b != id
    ensures b in Serve(st, ttl, id).requests <==> b in st.requests
    ensures b in st.requests ==> Serve(st, ttl, id).requests[b] == st.requests[b]
  {
  }

  // The token is in the table with this entry, which is in force until `end` or longer.
  ghost predicate GoodUntil(st: State, t: Token, ref: Ref, end: int) {
    && t in st.tokens && st.tokens[t] == ref && ref in st.infos
    && st.infos[ref].expires.Some? && end <= st.infos[ref].expires.value
  }

  lemma GoodNow(st: State, t: Token, ref: Ref, end: int)
    requires GoodUntil(st, t, ref, end) && st.now <= end
    ensures ref in st.infos && !IsExpired(st.infos[ref], st.now)
  {
  }

  // A token that is in the table later on was there all the time, and as good as before.
  lemma StaysGood(run: seq<State>, ttl: int, b: nat, k: nat, j: nat, t: Token, ref: Ref, end: int)
    requires IsRun(run, ttl) && b <= k <= j < |run| && GoodUntil(run[b], t, ref, end) && t in run[j].tokens
    ensures GoodUntil(run[k], t, ref, end)
  {
    hide IsRun, Spent;
    StaysInTable(run, ttl, b, k, t);
    if t !in run[k].tokens {
      SpentForever(run, ttl, k, j, t);
      SpentOut(run[j], t);
    }
    RunAdvances(run, ttl, b, k);
  }

  // Until its end, whoever waits to delete the token did so already at the beginning.
  lemma {:induction false} CondemnedBefore(run: seq<State>, ttl: int, b: nat, j: nat, t: Token, ref: Ref, end: int,
                                           x: nat)
    requires IsRun(run, ttl) && b <= j < |run| && GoodUntil(run[b], t, ref, end) && run[j].now <= end
    requires t in run[j].tokens && Condemns(run[j], t, x)
    ensures Condemns(run[b], t, x)
    decreases j
  {
    hide Condemns, IsRun, GoodUntil;
    if b < j {
      CondemnedStep(run, ttl, b, j, t, ref, end, x);
      CondemnedBefore(run, ttl, b, j - 1, t, ref, end, x);
    }
  }

  lemma CondemnedStep(run: seq<State>, ttl: int, b: nat, j: nat, t: Token, ref: Ref, end: int, x: nat)
    requires IsRun(run, ttl) && b < j < |run| && GoodUntil(run[b], t, ref, end) && run[j].now <= end
    requires t in run[j].tokens && Condemns(run[j], t, x)
    ensures t in run[j - 1].tokens && run[j - 1].now <= end && Condemns(run[j - 1], t, x)
  {
    hide Condemns, Step, TokensOk, PendingApart, ExpiriesOk, RequestsOk, EntriesMatch, IsRun;
    RunStep(run, ttl, j);
    ClockForward(run, ttl, j);
    StaysGood(run, ttl, b, j - 1, j, t, ref, end);
    RunKeeps(run, ttl, j - 1);
    RunMatches(run, ttl, j - 1);
    StepCondemns(run[j - 1], run[j], ttl, t, ref, x);
  }

  lemma RunStep(run: seq<State>, ttl: int, j: nat)
    requires IsRun(run, ttl) && 0 < j < |run|
    ensures Step(run[j - 1], run[j], ttl)
  {
    hide Step, Initial;
  }

  lemma ClockForward(run: seq<State>, ttl: int, j: nat)
    requires IsRun(run, ttl) && 0 < j < |run|
    ensures run[j - 1].now <= run[j].now
  {
    RunStep(run, ttl, j);
    StepClock(run[j - 1], run[j], ttl);
  }

  lemma StepClock(st: State, st': State, ttl: int)
    requires Step(st, st', ttl)
    ensures st.now <= st'.now
  {
    hide Serve;
    if id :| id in st.requests && st' == Serve(st, ttl, id) {
      ServeClock(st, ttl, id);
    }
  }

  lemma ServeClock(st: State, ttl: int, id: nat)
    requires id in st.requests
    ensures Serve(st, ttl, id).now == st.now
  {
  }

  // Neither a re-login, nor the deletion of a request that was about to delete the token at `at`.
  ghost predicate Spares(at: State, st: State, st': State, ttl: int, t: Token) {
    !Relogs(st, st', t) && forall b :: Condemns(at, t, b) ==> !Deletes(st, st', ttl, t, b)
  }

  lemma {:induction false} SparedStays(run: seq<State>, ttl: int, b: nat, j: nat, t: Token, ref: Ref, end: int)
    requires IsRun(run, ttl) && b <= j < |run| && GoodUntil(run[b], t, ref, end) && run[j].now <= end
    requires forall k :: b < k <= j ==> Spares(run[b], run[k - 1], run[k], ttl, t)
    ensures t in run[j].tokens
    decreases j
  {
    hide IsRun, Spares;
    if b < j {
      ClockForward(run, ttl, j);
      SparedStays(run, ttl, b, j - 1, t, ref, end);
      SparedStep(run, ttl, b, j, t, ref, end);
    }
  }

  lemma SparedStep(run: seq<State>, ttl: int, b: nat, j: nat, t: Token, ref: Ref, end: int)
    requires IsRun(run, ttl) && b < j < |run| && GoodUntil(run[b], t, ref, end) && run[j - 1].now <= end
    requires t in run[j - 1].tokens && Spares(run[b], run[j - 1], run[j], ttl, t)
    ensures t in run[j].tokens
  {
    hide Serve, Step, StateOk, IsRun, Relogs, Condemns, Spent, GoodUntil;
    RunStep(run, ttl, j);
    RunKeeps(run, ttl, j - 1);
    RunKeeps(run, ttl, j);
    StepDrops(run[j - 1], run[j], ttl, t);
    if t !in run[j].tokens {
      var x := Deleter(run[j - 1], run[j], ttl, t);
      DeleterCondemns(run[j - 1], run[j], ttl, t, x);
      CondemnedBefore(run, ttl, b, j - 1, t, ref, end, x);
    }
  }

  lemma Deleter(st: State, st': State, ttl: int, t: Token) returns (b: nat)
    requires Drops(st, st', ttl, t) && !Relogs(st, st', t)
    ensures Deletes(st, st', ttl, t, b)
  {
    hide Deletes, Relogs;
    b :| Deletes(st, st', ttl, t, b);
  }

  lemma DeleterCondemns(st: State, st': State, ttl: int, t: Token, b: nat)
    requires Deletes(st, st', ttl, t, b)
    ensures Condemns(st, t, b)
  {
    hide Serve;
  }

  // What a good entry is worth: until its end, the token is in the table with that entry in force exactly
  // when its user did not log in again and no deletion was served that had been decided before.
  lemma InForceUntil(run: seq<State>, ttl: int, b: nat, j: nat, t: Token, ref: Ref, end: int)
    requires IsRun(run, ttl) && b <= j < |run| && GoodUntil(run[b], t, ref, end) && run[j].now <= end
    ensures InForce(run[j], t, ref) <==> forall k :: b < k <= j ==> Spares(run[b], run[k - 1], run[k], ttl, t)
  {
    hide IsRun, Serve, Relogs, Condemns, Spent, IsExpired;
    StaysInTable(run, ttl, b, j, t);
    if t in run[j].tokens {
      StaysGood(run, ttl, b, j, j, t, ref, end);
      GoodNow(run[j], t, ref, end);
      forall k | b < k <= j
        ensures Spares(run[b], run[k - 1], run[k], ttl, t)
      {
        assert !Drops(run[k - 1], run[k], ttl, t);
      }
    }
    if forall k :: b < k <= j ==> Spares(run[b], run[k - 1], run[k], ttl, t) {
      SparedStays(run, ttl, b, j, t, ref, end);
    }
  }

  /** What a renewal is worth: until the token lifetime has passed, the token is in the table, with its
      renewed entry in force, exactly when its user did not log in again and no request was served that
      had decided, before the renewal, to delete the token as expired. */
  lemma ActivityKeepsAlive(run: seq<State>, ttl: int, i: nat, j: nat, a: nat, ref: Ref, t: Token)
    requires IsRun(run, ttl) && i < j < |run| && a in run[i].requests && run[i].requests[a] == Request(t, Sliding(ref))
    requires t in run[i].tokens && run[i + 1] == Serve(run[i], ttl, a) && run[j].now <= run[i].now + ttl
    ensures InForce(run[j], t, ref) <==> forall k :: i + 1 < k <= j ==> Spares(run[i + 1], run[k - 1], run[k], ttl, t)
  {
    hide IsRun, Serve, TokensOk, PendingApart, RequestsOk, ExpiriesOk, EntriesMatch, Spares, InForce;
    RunKeeps(run, ttl, i);
    RunMatches(run, ttl, i);
    WaitingEntry(run[i], a, t, ref);
    ServeDrops(run[i], ttl, t, a);
    Renewed(run[i], ttl, a, ref);
    InForceUntil(run, ttl, i + 1, j, t, ref, run[i].now + ttl);
  }

  lemma WaitingEntry(st: State, a: nat, t: Token, ref: Ref)
    requires RequestsOk(st) && EntriesMatch(st) && a in st.requests && st.requests[a] == Request(t, Sliding(ref))
    ensures t in st.tokens ==> st.tokens[t] == ref
  {
    assert HoldsTableEntry(st, st.requests[a]);
  }

  // ----- Fresh logins -----

  // A login appears between the two states.
  ghost predicate LoginAppears(st: State, st': State, id: nat) {
    id !in st.logins && id in st'.logins
  }

  // Its token is entered between the two states.
  ghost predicate LoginEnters(st: State, st': State, id: nat) {
    id in st.logins && id !in st'.logins
  }

  // A login that appears has computed its expiry: a lifetime from now. Its token is new.
  lemma NewLogin(st: State, st': State, ttl: int, id: nat)
    requires RequestsOk(st) && Step(st, st', ttl) && LoginAppears(st, st', id)
    ensures st'.logins[id].expires == st.now + ttl && st'.logins[id].token !in st.issued
  {
    hide Serve, Generate, Replace;
    if x :| x in st.requests && st' == Serve(st, ttl, x) {
      ServeShape(st, ttl, x);
    } else if x, user, token :| Generate(st, st', ttl, x, user, token) {
      GeneratedLogin(st, st', ttl, x, user, token, id);
    } else if x, ref :| Replace(st, st', x, ref) {
      ReplacedLogin(st, st', x, ref, id);
    }
  }

  lemma GeneratedLogin(st: State, st': State, ttl: int, x: nat, user: string, token: Token, id: nat)
    requires Generate(st, st', ttl, x, user, token)
    ensures id in st.logins ==> id in st'.logins
    ensures LoginAppears(st, st', id) ==> st'.logins[id] == Login(user, token, st.now + ttl) && token !in st.issued
  {
  }

  lemma ReplacedLogin(st: State, st': State, x: nat, ref: Ref, id: nat)
    requires Replace(st, st', x, ref)
    ensures id in st'.logins ==> id in st.logins
    ensures LoginEnters(st, st', id) ==>
      var l := st.logins[id];
      && l.token in st'.tokens && st'.tokens[l.token] == ref && ref in st'.infos
      && st'.infos[ref] == Info(l.user, Some(l.expires))
      && l.user in st'.users && st'.users[l.user] == l.token && st'.requests == st.requests
  {
  }

  lemma KeptLogin(st: State, st': State, ttl: int, id: nat)
    requires RequestsOk(st) && Step(st, st', ttl) && id in st.logins && id in st'.logins
    ensures st'.logins[id] == st.logins[id]
  {
    hide Serve;
    if x :| x in st.requests && st' == Serve(st, ttl, x) {
      ServeShape(st, ttl, x);
    }
  }

  // A login that is gone has entered its token, for its user and with its expiry, and nothing that a
  // request waits for has changed.
  lemma EnteredLogin(st: State, st': State, ttl: int, id: nat)
    requires RequestsOk(st) && Step(st, st', ttl) && LoginEnters(st, st', id)
    ensures
      var l := st.logins[id];
      && l.token in st'.tokens && st'.tokens[l.token] in st'.infos
      && st'.infos[st'.tokens[l.token]] == Info(l.user, Some(l.expires))
      && l.user in st'.users && st'.users[l.user] == l.token && st'.requests == st.requests
  {
    hide Serve, Generate, Replace;
    if x :| x in st.requests && st' == Serve(st, ttl, x) {
      ServeShape(st, ttl, x);
    } else if x, user, token :| Generate(st, st', ttl, x, user, token) {
      GeneratedLogin(st, st', ttl, x, user, token, id);
    } else if x, ref :| Replace(st, st', x, ref) {
      ReplacedLogin(st, st', x, ref, id);
    }
  }

  lemma {:induction false} SameLogin(run: seq<State>, ttl: int, i: nat, j: nat, id: nat)
    requires IsRun(run, ttl) && i <= j < |run| && forall k :: i <= k <= j ==> id in run[k].logins
    ensures run[j].logins[id] == run[i].logins[id]
    decreases j
  {
    hide IsRun, Step, TokensOk, PendingApart, RequestsOk, ExpiriesOk;
    if i < j {
      SameLogin(run, ttl, i, j - 1, id);
      RunKeeps(run, ttl, j - 1);
      RunStep(run, ttl, j);
      KeptLogin(run[j - 1], run[j], ttl, id);
    }
  }

  // The login that appears between states `i` and `i + 1` enters its token between `j` and `j + 1`.
  ghost predicate LogsIn(run: seq<State>, i: nat, j: nat, id: nat) {
    && i < j < |run| - 1 && LoginAppears(run[i], run[i + 1], id) && LoginEnters(run[j], run[j + 1], id)
    && forall k :: i < k <= j ==> id in run[k].logins
  }

  /** The entry that a login makes expires a lifetime after the login appeared, whenever it is entered. */
  lemma LoginExpiry(run: seq<State>, ttl: int, i: nat, j: nat, id: nat)
    requires IsRun(run, ttl) && LogsIn(run, i, j, id)
    ensures
      var l, st := run[i + 1].logins[id], run[j + 1];
      && l.token in st.tokens && st.tokens[l.token] in st.infos
      && st.infos[st.tokens[l.token]] == Info(l.user, Some(run[i].now + ttl))
      && l.user in st.users && st.users[l.user] == l.token
      && run[j].logins[id] == l && st.requests == run[j].requests
  {
    hide IsRun, Step, TokensOk, PendingApart, RequestsOk, ExpiriesOk;
    RunKeeps(run, ttl, i);
    RunKeeps(run, ttl, j);
    RunStep(run, ttl, i + 1);
    RunStep(run, ttl, j + 1);
    NewLogin(run[i], run[i + 1], ttl, id);
    SameLogin(run, ttl, i + 1, j, id);
    EnteredLogin(run[j], run[j + 1], ttl, id);
  }

  // Nobody can have decided to delete a token that is being entered.
  lemma NoneCondemned(st: State, st': State, t: Token, id: nat, b: nat)
    requires RequestsOk(st) && id in st.logins && st.logins[id].token == t && st'.requests == st.requests
    ensures !Condemns(st', t, b)
  {
    if b in st.requests {
      assert RequestOk(st, st.requests[b]);
    }
  }

  /** What a login is worth: until a lifetime has passed since it appeared, its token is in the table with
      its entry in force exactly when its user did not log in again. */
  lemma LoginKeepsAlive(run: seq<State>, ttl: int, i: nat, j: nat, m: nat, id: nat)
    requires IsRun(run, ttl) && LogsIn(run, i, j, id) && j < m < |run| && run[m].now <= run[i].now + ttl
    ensures
      var t := run[i + 1].logins[id].token;
      && t in run[j + 1].tokens
      && (InForce(run[m], t, run[j + 1].tokens[t]) <==> forall k :: j + 1 < k <= m ==> !Relogs(run[k - 1], run[k], t))
  {
    hide IsRun, TokensOk, PendingApart, RequestsOk, ExpiriesOk, Relogs, InForce, Condemns, Deletes;
    LoginExpiry(run, ttl, i, j, id);
    var t := run[i + 1].logins[id].token;
    var ref := run[j + 1].tokens[t];
    RunKeeps(run, ttl, j);
    var after := run[j + 1];
    forall b
      ensures !Condemns(after, t, b)
    {
      NoneCondemned(run[j], after, t, id, b);
    }
    InForceUntil(run, ttl, j + 1, m, t, ref, run[i].now + ttl);
  }

  ghost predicate InForce(st: State, t: Token, ref: Ref) {
    t in st.tokens && st.tokens[t] == ref && ref in st.infos && !IsExpired(st.infos[ref], st.now)
  }

  /** The race: two requests looked the same entry up. The first finds it in force and is about to renew
      it when it expires; the second then finds it expired. The first is accepted and the entry is in force
      again, and after that the second takes the token out of the table for good. */
  lemma RenewedThenDeleted(st: State, ttl: int, a: nat, b: nat, ref: Ref, t: Token, later: int)
    requires StateOk(st, ttl) && ttl > 0 && t in st.tokens && st.tokens[t] == ref && a != b
    requires a in st.requests && b in st.requests && st.requests[a] == st.requests[b] == Request(t, Found(ref))
    requires ref in st.infos && st.infos[ref].expires.Some? && st.now <= st.infos[ref].expires.value < later
    ensures
      var checked := Serve(st, ttl, a);
      var expired := checked.(now := later);
      && Tick(checked, expired) && b in expired.requests
      && var condemned := Serve(expired, ttl, b);
         && Condemns(condemned, t, b) && a in condemned.requests
         && var renewed := Serve(condemned, ttl, a);
            && InForce(renewed, t, ref) && renewed.requests[a].phase == Accepted(st.infos[ref].user)
            && b in renewed.requests && Spent(Serve(renewed, ttl, b), t)
  {
    assert RequestOk(st, st.requests[a]);
  }
}
