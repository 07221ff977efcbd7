/** Requests under way when their token is spent (internal/service/service.go): the interceptor looks a token
    up, checks its entry and renews it in separate steps, so a re-login does not stop a request half-way.
    Which of them can still be accepted, whatever happens next? */
module TokensInFlight {
  import opened Tokens

  // Request `b` has checked the entry and is about to renew it.
  ghost predicate Renews(st: State, ref: Ref, b: nat) {
    b in st.requests && st.requests[b].phase == Sliding(ref)
  }

  // The entry has not expired, or another request is about to put it in force again.
  ghost predicate StillGood(st: State, ttl: int, ref: Ref)
    requires ref in st.infos
  {
    !IsExpired(st.infos[ref], st.now) || (ttl >= 0 && exists b :: Renews(st, ref, b))
  }

  // The request is past the lookup, and past the expiry check or sure to find its entry in force in time.
  ghost predicate PastLookup(st: State, ttl: int, id: nat)
    requires id in st.requests
  {
    match st.requests[id].phase
    case Accepted(_) => true
    case Sliding(_) => true
    case Found(ref) => ref in st.infos && StillGood(st, ttl, ref)
    case _ => false
  }

  ghost predicate AcceptedIn(st: State, id: nat) {
    id in st.requests && st.requests[id].phase.Accepted?
  }

  // ----- What can no longer be accepted never is -----

  ghost predicate Stuck(st: State, ttl: int, id: nat) {
    id in st.requests && Spent(st, st.requests[id].token) && !PastLookup(st, ttl, id)
  }

  // What a step that serves no request leaves alone.
  ghost predicate Quiet(st: State, st': State) {
    && st.now <= st'.now
    && (forall r :: r in st.infos ==> r in st'.infos && st'.infos[r] == st.infos[r])
    && (forall x :: x in st.requests ==> x in st'.requests && st'.requests[x] == st.requests[x])
    && (forall x :: x in st'.requests ==> x in st.requests || st'.requests[x].phase.Arrived?)
  }

  lemma ServesOrQuiet(st: State, st': State, ttl: int)
    requires Step(st, st', ttl)
    ensures (exists x :: x in st.requests && st' == Serve(st, ttl, x)) || Quiet(st, st')
  {
    hide Serve, Quiet, Generate, Replace, Tick, Arrive;
    if x, user, token :| Generate(st, st', ttl, x, user, token) {
      GenerateIsQuiet(st, st', ttl, x, user, token);
    } else if x, ref :| Replace(st, st', x, ref) {
      ReplaceIsQuiet(st, st', x, ref);
    } else if Tick(st, st') || exists x, token :: Arrive(st, st', x, token) {
      TickOrArriveIsQuiet(st, st');
    }
  }

  lemma GenerateIsQuiet(st: State, st': State, ttl: int, x: nat, user: string, token: Token)
    requires Generate(st, st', ttl, x, user, token)
    ensures Quiet(st, st')
  {
  }

  lemma ReplaceIsQuiet(st: State, st': State, x: nat, ref: Ref)
    requires Replace(st, st', x, ref)
    ensures Quiet(st, st')
  {
  }

  lemma TickOrArriveIsQuiet(st: State, st': State)
    requires Tick(st, st') || exists x, token :: Arrive(st, st', x, token)
    ensures Quiet(st, st')
  {
  }

  lemma StuckStaysSpent(st: State, st': State, ttl: int, id: nat)
    requires RequestsOk(st) && Step(st, st', ttl) && Stuck(st, ttl, id)
    ensures id in st'.requests && st'.requests[id].token == st.requests[id].token && Spent(st', st.requests[id].token)
  {
    SpentStays(st, st', ttl, st.requests[id].token);
    ServesOrQuiet(st, st', ttl);
    hide Spent, PastLookup, Serve, Step, RequestsOk;
    if x :| x in st.requests && st' == Serve(st, ttl, x) {
      ServeShape(st, ttl, x);
    }
  }

  // Serving the request itself: refused, or on its way to delete its expired entry.
  lemma ServeStuck(st: State, ttl: int, id: nat)
    requires RequestsOk(st) && Stuck(st, ttl, id)
    ensures id in Serve(st, ttl, id).requests && !PastLookup(Serve(st, ttl, id), ttl, id)
  {
    assert RequestOk(st, st.requests[id]);
    assert st.requests[id].token !in st.tokens;
    hide StillGood, Spent;
    if st.requests[id].phase.Found? {
      NotGoodIsExpired(st, ttl, st.requests[id].phase.ref);
    }
  }

  lemma NotGoodIsExpired(st: State, ttl: int, ref: Ref)
    requires ref in st.infos && !StillGood(st, ttl, ref)
    ensures IsExpired(st.infos[ref], st.now)
  {
  }

  // Serving another request renews the expired entry only if that was about to happen.
  lemma ServeOther(st: State, ttl: int, x: nat, ref: Ref)
    requires x in st.requests && ref in st.infos && !StillGood(st, ttl, ref)
    ensures ref in Serve(st, ttl, x).infos && !StillGood(Serve(st, ttl, x), ttl, ref)
  {
    var st' := Serve(st, ttl, x);
    assert st.requests[x].phase == Sliding(ref) ==> Renews(st, ref, x);
    if ttl >= 0 {
      forall b | Renews(st', ref, b)
        ensures Renews(st, ref, b)
      {
        assert b != x ==> st'.requests[b] == st.requests[b];
      }
    }
  }

  lemma ServeLeaves(st: State, ttl: int, x: nat, id: nat)
    requires x in st.requests && id in st.requests && x != id
    ensures id in Serve(st, ttl, x).requests && Serve(st, ttl, x).requests[id] == st.requests[id]
  {
  }

  lemma ServedStuck(st: State, ttl: int, x: nat, id: nat)
    requires RequestsOk(st) && x in st.requests && Stuck(st, ttl, id)
    ensures id in Serve(st, ttl, x).requests && !PastLookup(Serve(st, ttl, x), ttl, id)
  {
    hide Serve, StillGood, Spent;
    if x == id {
      ServeStuck(st, ttl, id);
    } else {
      ServeLeaves(st, ttl, x, id);
      assert RequestOk(st, st.requests[id]);
      if st.requests[id].phase.Found? {
        ServeOther(st, ttl, x, st.requests[id].phase.ref);
      }
    }
  }

  // Ticks, arrivals, generated tokens and replacements renew nothing.
  lemma QuietStuck(st: State, st': State, ttl: int, id: nat)
    requires RequestsOk(st) && Stuck(st, ttl, id) && id in st'.requests && Quiet(st, st')
    ensures !PastLookup(st', ttl, id)
  {
    assert RequestOk(st, st.requests[id]);
    if st'.requests[id].phase.Found? {
      assert forall b :: Renews(st', st'.requests[id].phase.ref, b) ==> Renews(st, st'.requests[id].phase.ref, b);
    }
  }

  lemma StepStuck(st: State, st': State, ttl: int, id: nat)
    requires StateOk(st, ttl) && Step(st, st', ttl) && Stuck(st, ttl, id)
    ensures Stuck(st', ttl, id)
  {
    StuckStaysSpent(st, st', ttl, id);
    ServesOrQuiet(st, st', ttl);
    hide Serve, PastLookup, Spent, Step, Quiet, TokensOk, PendingApart, RequestsOk, ExpiriesOk;
    if x :| x in st.requests && st' == Serve(st, ttl, x) {
      ServedStuck(st, ttl, x, id);
    } else {
      QuietStuck(st, st', ttl, id);
    }
  }

  lemma {:induction false} NeverAccepted(run: seq<State>, ttl: int, i: nat, j: nat, id: nat)
    requires IsRun(run, ttl) && i <= j < |run| && Stuck(run[i], ttl, id)
    ensures Stuck(run[j], ttl, id) && !AcceptedIn(run[j], id)
    decreases j
  {
    hide Step, TokensOk, PendingApart, RequestsOk, ExpiriesOk, Spent, PastLookup, Initial, AcceptedIn;
    if i < j {
      NeverAccepted(run, ttl, i, j - 1, id);
      RunKeeps(run, ttl, j - 1);
      StepStuck(run[j - 1], run[j], ttl, id);
    }
    StuckNotAccepted(run[j], ttl, id);
  }

  lemma StuckNotAccepted(st: State, ttl: int, id: nat)
    requires Stuck(st, ttl, id)
    ensures !AcceptedIn(st, id)
  {
  }

  // ----- What still can be accepted is, if it is served next -----

  lemma ServeRun(run: seq<State>, ttl: int, x: nat)
    requires IsRun(run, ttl) && x in run[|run| - 1].requests
    ensures IsRun(run + [Serve(run[|run| - 1], ttl, x)], ttl)
  {
    var st := run[|run| - 1];
    var more := run + [Serve(st, ttl, x)];
    assert Step(st, more[|run|], ttl);
    hide Serve, Step, Initial;
    forall i | 0 < i < |more|
      ensures Step(more[i - 1], more[i], ttl)
    {
      if i < |run| {
        assert more[i] == run[i];
      }
    }
  }

  // One or two steps accept a request that has found its entry in force, as the user of the entry.
  lemma ServeFound(run: seq<State>, ttl: int, id: nat) returns (later: seq<State>)
    requires IsRun(run, ttl) && id in run[|run| - 1].requests && run[|run| - 1].requests[id].phase.Found?
    requires
      var st, ref := run[|run| - 1], run[|run| - 1].requests[id].phase.ref;
      ref in st.infos && !IsExpired(st.infos[ref], st.now)
    ensures IsRun(later, ttl) && run <= later && id in later[|later| - 1].requests
    ensures
      var st := run[|run| - 1];
      later[|later| - 1].requests[id].phase == Accepted(st.infos[st.requests[id].phase.ref].user)
  {
    var st := run[|run| - 1];
    later := run + [Serve(st, ttl, id)];
    ServeRun(run, ttl, id);
    hide IsRun;
    var found := later[|later| - 1];
    if found.requests[id].phase.Sliding? {
      ServeRun(later, ttl, id);
      later := later + [Serve(found, ttl, id)];
    }
  }

  lemma RenewFound(st: State, ttl: int, b: nat, id: nat, ref: Ref)
    requires Renews(st, ref, b) && ref in st.infos && ttl >= 0 && id in st.requests
    requires st.requests[id].phase == Found(ref)
    ensures
      var st' := Serve(st, ttl, b);
      && id in st'.requests && st'.requests[id].phase == Found(ref)
      && ref in st'.infos && !IsExpired(st'.infos[ref], st'.now)
  {
  }

  lemma ServeSliding(st: State, ttl: int, id: nat)
    requires RequestsOk(st) && id in st.requests && st.requests[id].phase.Sliding?
    ensures AcceptedIn(Serve(st, ttl, id), id)
  {
    assert RequestOk(st, st.requests[id]);
  }

  lemma Accepts(run: seq<State>, ttl: int, id: nat) returns (later: seq<State>)
    requires IsRun(run, ttl) && id in run[|run| - 1].requests && PastLookup(run[|run| - 1], ttl, id)
    ensures IsRun(later, ttl) && run <= later && AcceptedIn(later[|later| - 1], id)
  {
    var st := run[|run| - 1];
    RunKeeps(run, ttl, |run| - 1);
    hide IsRun, Serve, TokensOk, PendingApart, RequestsOk, ExpiriesOk;
    later := run;
    match st.requests[id].phase
    case Accepted(_) =>
    case Sliding(_) =>
      ServeRun(run, ttl, id);
      ServeSliding(st, ttl, id);
      later := run + [Serve(st, ttl, id)];
    case Found(ref) =>
      later := AcceptsFound(run, ttl, id, ref);
  }

  lemma AcceptsFound(run: seq<State>, ttl: int, id: nat, ref: Ref) returns (later: seq<State>)
    requires IsRun(run, ttl) && id in run[|run| - 1].requests && run[|run| - 1].requests[id].phase == Found(ref)
    requires ref in run[|run| - 1].infos && StillGood(run[|run| - 1], ttl, ref)
    ensures IsRun(later, ttl) && run <= later && AcceptedIn(later[|later| - 1], id)
  {
    hide Step, Initial, Serve;
    var st := run[|run| - 1];
    later := run;
    if IsExpired(st.infos[ref], st.now) {
      var b :| Renews(st, ref, b);
      ServeRun(run, ttl, b);
      RenewFound(st, ttl, b, id, ref);
      later := run + [Serve(st, ttl, b)];
    }
    later := ServeFound(later, ttl, id);
  }

  // ----- The boundary -----

  // The run up to state `i` can go on so that the request is accepted.
  ghost predicate MayBeAccepted(run: seq<State>, ttl: int, i: nat, id: nat)
    requires i < |run|
  {
    exists later :: IsRun(later, ttl) && run[..i + 1] <= later && AcceptedIn(later[|later| - 1], id)
  }

  lemma RunPrefix(run: seq<State>, ttl: int, i: nat)
    requires IsRun(run, ttl) && i < |run|
    ensures IsRun(run[..i + 1], ttl) && run[..i + 1][|run[..i + 1]| - 1] == run[i]
  {
    hide Step, Initial;
  }

  /** Which requests with a spent token can still be accepted, over every continuation of every run: those
      that were accepted already, those about to renew their entry, and those that found an entry which has
      not expired or which another request is about to renew - and no others. */
  lemma InFlightExactly(run: seq<State>, ttl: int, i: nat, id: nat)
    requires IsRun(run, ttl) && i < |run| && id in run[i].requests && Spent(run[i], run[i].requests[id].token)
    ensures MayBeAccepted(run, ttl, i, id) <==> PastLookup(run[i], ttl, id)
  {
    RunPrefix(run, ttl, i);
    hide IsRun, PastLookup, Spent, AcceptedIn;
    if PastLookup(run[i], ttl, id) {
      var later := Accepts(run[..i + 1], ttl, id);
      assert MayBeAccepted(run, ttl, i, id);
    } else if later :| IsRun(later, ttl) && run[..i + 1] <= later && AcceptedIn(later[|later| - 1], id) {
      assert later[i] == run[i];
      NeverAccepted(later, ttl, i, |later| - 1, id);
    }
  }

  // ... in particular after a re-login, which spends the user's old token.
  lemma InFlightAfterRelogin(run: seq<State>, ttl: int, i: nat, id: nat, t: Token)
    requires IsRun(run, ttl) && 0 < i < |run| && Relogs(run[i - 1], run[i], t)
    requires id in run[i].requests && run[i].requests[id].token == t
    ensures MayBeAccepted(run, ttl, i, id) <==> PastLookup(run[i], ttl, id)
  {
    RelogSpends(run, ttl, i, t);
    hide IsRun, Spent, PastLookup, MayBeAccepted;
    InFlightExactly(run, ttl, i, id);
  }
}
