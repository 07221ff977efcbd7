/** Listing a module's commits while uploads run (internal/storage/docstore.go, internal/registry/module.go):
    each page reads one state of a run, and any steps of any uploads come between two pages. */
module ListingRuns {
  import opened Wrappers
  import opened Docstore
  import opened StoreInvariant
  import opened Uploads
  import opened Listing

  // Page `k` reads state `at[k]` of the run.
  ghost predicate ReadInOrder(run: seq<System>, at: seq<nat>) {
    && (forall k :: 0 <= k < |at| ==> at[k] < |run|)
    && (forall k :: 0 < k < |at| ==> at[k - 1] <= at[k])
  }

  ghost function TableAt(run: seq<System>, moduleId: Id32, i: nat): set<CommitId>
    requires i < |run|
  {
    ModuleCommits(run[i].store, moduleId)
  }

  ghost function TablesAt(run: seq<System>, moduleId: Id32, at: seq<nat>): (r: seq<set<CommitId>>)
    requires ReadInOrder(run, at)
    ensures |r| == |at| && forall k :: 0 <= k < |at| ==> r[k] == TableAt(run, moduleId, at[k])
  {
    seq(|at|, k requires 0 <= k < |at| => TableAt(run, moduleId, at[k]))
  }

  lemma TableGrows(env: Env, run: seq<System>, moduleId: Id32, i: nat, j: nat)
    requires IsRun(env, run) && i <= j < |run|
    ensures TableAt(run, moduleId, i) <= TableAt(run, moduleId, j)
  {
    RunGrows(env, run, i, j);
    hide IsRun;
  }

  lemma {:induction false} TablesGrow(env: Env, run: seq<System>, moduleId: Id32, at: seq<nat>)
    requires IsRun(env, run) && ReadInOrder(run, at)
    ensures Growing(TablesAt(run, moduleId, at))
    decreases |at|
  {
    hide IsRun, TableAt;
    if |at| > 1 {
      TableGrows(env, run, moduleId, at[0], at[1]);
      TablesGrow(env, run, moduleId, at[1..]);
      TablesTail(run, moduleId, at);
    }
  }

  lemma TablesTail(run: seq<System>, moduleId: Id32, at: seq<nat>)
    requires ReadInOrder(run, at) && at != []
    ensures ReadInOrder(run, at[1..]) && TablesAt(run, moduleId, at)[1..] == TablesAt(run, moduleId, at[1..])
  {
    hide TableAt;
  }

  // Step `k` of the run inserts a commit of the module.
  ghost predicate Inserts(run: seq<System>, moduleId: Id32, k: nat, id: CommitId) {
    0 < k < |run| && id in TableAt(run, moduleId, k) && id !in TableAt(run, moduleId, k - 1)
  }

  // A step between states `i` and `j` inserts a commit of the module below the token.
  ghost predicate InsertsBelow(run: seq<System>, moduleId: Id32, i: nat, j: nat, token: CommitId) {
    exists k, id: CommitId :: i < k <= j && id < token && Inserts(run, moduleId, k, id)
  }

  // Between any two pages, no commit of the module is inserted below the token of the first of them.
  ghost predicate NoneInserted(run: seq<System>, moduleId: Id32, at: seq<nat>, limits: seq<int>,
                               token: Option<CommitId>)
    requires ReadInOrder(run, at) && |limits| == |at|
    decreases |at|
  {
    |at| > 1 ==>
      var next := Listing.Request(TableAt(run, moduleId, at[0]), limits[0], token).1;
      next.Some? ==>
        && !InsertsBelow(run, moduleId, at[0], at[1], next.value)
        && NoneInserted(run, moduleId, at[1..], limits[1..], next)
  }

  // What is in a later table was there before, or was inserted by a step in between.
  lemma {:induction false} InsertedBetween(run: seq<System>, moduleId: Id32, i: nat, j: nat, id: CommitId)
    requires i <= j < |run| && id in TableAt(run, moduleId, j) && id !in TableAt(run, moduleId, i)
    ensures exists k :: i < k <= j && Inserts(run, moduleId, k, id)
    decreases j
  {
    hide TableAt;
    if id in TableAt(run, moduleId, j - 1) {
      InsertedBetween(run, moduleId, i, j - 1, id);
    } else {
      assert Inserts(run, moduleId, j, id);
    }
  }

  lemma InsertsBelowExactly(env: Env, run: seq<System>, moduleId: Id32, i: nat, j: nat, token: CommitId)
    requires IsRun(env, run) && i <= j < |run|
    ensures
      InsertsBelow(run, moduleId, i, j, token)
      <==> !(Rest(TableAt(run, moduleId, j), Some(token)) <= TableAt(run, moduleId, i))
  {
    hide IsRun, TableAt;
    if k: nat, id: CommitId :| i < k <= j && id < token && Inserts(run, moduleId, k, id) {
      TableGrows(env, run, moduleId, i, k - 1);
      TableGrows(env, run, moduleId, k, j);
      assert id in Rest(TableAt(run, moduleId, j), Some(token));
    }
    if id :| id in Rest(TableAt(run, moduleId, j), Some(token)) && id !in TableAt(run, moduleId, i) {
      InsertedBetween(run, moduleId, i, j, id);
    }
  }

  lemma {:induction false} NoneInsertedExactly(env: Env, run: seq<System>, moduleId: Id32, at: seq<nat>,
                                               limits: seq<int>, token: Option<CommitId>)
    requires IsRun(env, run) && ReadInOrder(run, at) && |limits| == |at|
    ensures NoneInserted(run, moduleId, at, limits, token) <==> NoneBelow(TablesAt(run, moduleId, at), limits, token)
    decreases |at|
  {
    hide IsRun, TableAt, Listing.Request, InsertsBelow;
    if |at| > 1 {
      var next := Listing.Request(TableAt(run, moduleId, at[0]), limits[0], token).1;
      TablesTail(run, moduleId, at);
      if next.Some? {
        InsertsBelowExactly(env, run, moduleId, at[0], at[1], next.value);
        NoneInsertedExactly(env, run, moduleId, at[1..], limits[1..], next);
      }
    }
  }

  /** Pages read at any states of any run of uploads: nothing is returned twice or out of order, nothing is
      made up, everything the module had at the first page is returned by the end, and the end comes. The
      whole listing is the first page's table, newest first, exactly when no step between two pages
      inserted a commit of the module below the token then current. */
  lemma ListingDuringUploads(env: Env, run: seq<System>, moduleId: Id32, at: seq<nat>, limits: seq<int>,
                             token: Option<CommitId>)
    requires IsRun(env, run) && ReadInOrder(run, at) && |limits| == |at| && at != []
    requires token.None? || token.value in TableAt(run, moduleId, at[0])
    ensures
      var first, last := TableAt(run, moduleId, at[0]), TableAt(run, moduleId, at[|at| - 1]);
      var (ids, ended) := Follow(TablesAt(run, moduleId, at), limits, token);
      && Descending(ids) && (forall c :: c in ids ==> c in Rest(last, token))
      && (ended ==> forall c :: c in Rest(first, token) ==> c in ids)
      && (|at| >= |Rest(last, token)| ==> ended)
      && (ended ==> (ids == Desc(Rest(first, token)) <==> NoneInserted(run, moduleId, at, limits, token)))
  {
    hide IsRun, TableAt, Follow, NoneInserted, NoneBelow, Rest, Descending;
    var tables := TablesAt(run, moduleId, at);
    TablesGrow(env, run, moduleId, at);
    FollowComplete(tables, limits, token);
    FollowExactly(tables, limits, token);
    NoneInsertedExactly(env, run, moduleId, at, limits, token);
  }

  // Ids are minted and inserted in two steps, so an id can come in below a token: whenever an upload holds
  // a minted id below the token of a page, its next step spoils the listing.
  lemma LateInsert(env: Env, run: seq<System>, p: nat, limit: int, token: Option<CommitId>) returns (later: seq<System>)
    requires IsRun(env, run) && p in run[|run| - 1].uploads && run[|run| - 1].uploads[p].phase.InsertCommit?
    ensures
      var i, u := |run| - 1, run[|run| - 1].uploads[p];
      var next := Listing.Request(TableAt(run, ModuleOf(env, u), i), limit, token).1;
      && IsRun(env, later) && |later| == |run| + 1 && later[..|run|] == run
      && (next.Some? && u.phase.id < next.value ==> InsertsBelow(later, ModuleOf(env, u), i, i + 1, next.value))
  {
    var i, sys := |run| - 1, run[|run| - 1];
    RunKeeps(env, run, i);
    var u := sys.uploads[p];
    later := run + [Advance(env, sys, p, None)];
    assert Advances(env, sys, later[i + 1], p, None);
    RunOneMore(env, run, later[i + 1]);
    InsertsNow(env, sys, p);
    hide IsRun, Listing.Request, ModuleCommits, Advance, ModuleOf;
    assert later[i] == sys;
    assert Inserts(later, ModuleOf(env, u), i + 1, u.phase.id);
  }

  lemma InsertsNow(env: Env, sys: System, p: nat)
    requires SystemOk(env, sys) && p in sys.uploads && sys.uploads[p].phase.InsertCommit?
    ensures
      var u, after := sys.uploads[p], Advance(env, sys, p, None).store;
      && u.phase.id !in ModuleCommits(sys.store, ModuleOf(env, u))
      && u.phase.id in ModuleCommits(after, ModuleOf(env, u))
  {
    hide StoreOk, UploadOk, ModuleOf, FilesDigestOf, UploadStep;
  }
}
