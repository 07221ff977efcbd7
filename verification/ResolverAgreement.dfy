/** The v1 and v1beta1 resolvers side by side. */
module ResolverAgreement {
  import opened Wrappers
  import opened Docstore
  import opened Graph
  import opened Resolvers
  import ResolverV1
  import ResolverV1Beta1

  // For the same store and request both resolvers succeed or both fail; when they succeed they list
  // the same commit ids and the same edges, in the same order, each with its own kind of digest.
  method ResolveBoth(ids: Ids, s: Store, refs: seq<ResourceRef>)
    returns (b: ResolverV1Beta1.GraphV1Beta1, v: ResolverV1.GraphV1, rb: Result<()>, rv: Result<()>)
    requires Tables(ids, s)
    ensures rb.Ok? == rv.Ok?
    ensures rb.Ok? ==> IdsOf(b.listed) == IdsOf(v.listed) && b.edges == v.edges
    ensures AreObjects(V1Beta1, s, b.listed) && AreObjects(V1, s, v.listed)
    ensures SlashFreeOwners(s) ==> (rb.Ok? <==> RefsResolve(ids, s, refs))
  {
    b := new ResolverV1Beta1.GraphV1Beta1(ids, s);
    v := new ResolverV1.GraphV1(ids, s);
    rb := b.GetGraph(refs);
    rv := v.GetGraph(refs);
    if SlashFreeOwners(s) && RefsResolve(ids, s, refs) {
      SlashFreeSucceeds(ids, s, refs);
    }
  }

  // A request whose references resolve is never refused, when owner names hold no slash.
  lemma SlashFreeSucceeds(ids: Ids, s: Store, refs: seq<ResourceRef>)
    requires Tables(ids, s) && SlashFreeOwners(s) && RefsResolve(ids, s, refs)
    ensures AllStay(ids, s, Roots(ids, s, refs))
  {
    var roots := Roots(ids, s, refs);
    forall j | 0 <= j < |roots|
      ensures IsRoot(ids, s, roots[j])
    {
      RootResolves(ids, s, refs[j]);
    }
    StartChosen(ids, s, roots);
    SlashFreeRootsStay(ids, s, roots, 0, Start(CatalogOf(s), RootIds(roots)));
  }

  lemma StartChosen(ids: Ids, s: Store, roots: seq<Root>)
    requires forall j :: 0 <= j < |roots| ==> IsRoot(ids, s, roots[j])
    ensures Graph.Chosen(CatalogOf(s), Start(CatalogOf(s), RootIds(roots)))
  {
    var g, st := CatalogOf(s), Start(CatalogOf(s), RootIds(roots));
    forall k | k in st.selected
      ensures Resolves(g, st.selected[k])
    {
      var j :| 0 <= j < |roots| && RootIds(roots)[j] == st.selected[k];
      assert IsRoot(ids, s, roots[j]);
    }
  }
}
