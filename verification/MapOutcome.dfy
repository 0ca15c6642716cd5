/** The outcome of a mapping, end to end: the result of `core_map` (src/core/core_module.c) on one
    side in terms of the endpoints registered on the other. */
module MapOutcome {
  import opened CFormat
  import Connection
  import opened EndpointMatch
  import opened Handshake

  /** The verdict of a core with these endpoints on the MAP of endpoint `e`: what core_proto_map
      hands to ep_map. */
  predicate JudgedByQuery(j: Judge, locales: seq<Endpoint>, metadata: Json, query: seq<string>, num: NumberReader) {
    && EndpointQuery(locales, metadata, query, num).Some?
    && var r := EndpointQuery(locales, metadata, query, num).value;
       && (r.Some? ==> r.value < |locales|)
       && j.found == if r.Some? then Some(locales[r.value].id) else None
  }

  predicate Suits(f: Endpoint, e: Endpoint, metadata: Json, epQuery: seq<string>, num: NumberReader)
    requires WellMade(e)
  {
    Compatible(e, f) && Accepts(f, metadata, epQuery, num)
  }

  /** The search finds an endpoint exactly if one suits: compatible, and meeting the caller's clauses. */
  lemma FoundIffSuitable(locales: seq<Endpoint>, metadata: Json, e: Endpoint, epQuery: seq<string>, num: NumberReader)
    requires WellMade(e) && Disjoint(metadata) && forall f | f in locales :: WellMade(f)
    requires EndpointQuery(locales, metadata, BuildQuery(e, epQuery), num).Some?
    ensures EndpointQuery(locales, metadata, BuildQuery(e, epQuery), num).value.Some? <==>
            exists f :: f in locales && Suits(f, e, metadata, epQuery, num)
  {
    MatchedEndpointIsDual(locales, metadata, e, epQuery, num);
    var r := EndpointQuery(locales, metadata, BuildQuery(e, epQuery), num).value;
    if r.Some? {
      assert locales[r.value] in locales && Suits(locales[r.value], e, metadata, epQuery, num);
    } else {
      forall f | f in locales ensures !Suits(f, e, metadata, epQuery, num) {
        var k :| 0 <= k < |locales| && locales[k] == f;
        assert !Compatible(e, locales[k]) || Rejects(locales[k], metadata, epQuery, num);
      }
    }
  }

  /** In every accepting run whose MAP is judged by its query, when core_map returns: the result is
      zero exactly if the peer has an endpoint registered that is compatible with the asking one and
      meets the caller's clauses, and then the peer is mapped onto such an endpoint. */
  lemma ResultTellsAvailability(ep: Connection.EpId, acts: seq<Action>, locales: seq<Endpoint>, metadata: Json,
                                e: Endpoint, epQuery: seq<string>, num: NumberReader)
    requires WellMade(e) && Disjoint(metadata) && forall f | f in locales :: WellMade(f)
    requires Run(Start(true, ep), acts).Some? && Run(Start(true, ep), acts).value.thread.Returned?
    requires forall act | act in acts :: AcceptingAction(act)
    requires forall k: nat | DeliversMap(true, ep, acts, k) ::
               JudgedByQuery(acts[k].j, locales, metadata, BuildQuery(e, epQuery), num)
    ensures var s := Run(Start(true, ep), acts).value;
            s.thread.flag == 0 <==> exists f :: f in locales && Suits(f, e, metadata, epQuery, num)
    ensures var s := Run(Start(true, ep), acts).value;
            s.thread.flag == 0 ==>
              exists f :: f in locales && Suits(f, e, metadata, epQuery, num)
                && s.b.Some? && s.b.value.lep == Some(f.id)
  {
    var k := ResultIsVerdict(ep, acts);
    FoundIffSuitable(locales, metadata, e, epQuery, num);
    MatchedEndpointIsDual(locales, metadata, e, epQuery, num);
    var r := EndpointQuery(locales, metadata, BuildQuery(e, epQuery), num).value;
    if r.Some? {
      assert locales[r.value] in locales && Suits(locales[r.value], e, metadata, epQuery, num);
    }
  }

  /** With no clauses of the caller's the search always ends, and the result is zero exactly if a
      compatible endpoint is registered. */
  lemma PlainResultTellsAvailability(ep: Connection.EpId, acts: seq<Action>, locales: seq<Endpoint>, metadata: Json,
                                     e: Endpoint, num: NumberReader)
    requires WellMade(e) && Disjoint(metadata) && forall f | f in locales :: WellMade(f)
    requires Run(Start(true, ep), acts).Some? && Run(Start(true, ep), acts).value.thread.Returned?
    requires forall act | act in acts :: AcceptingAction(act)
    requires forall k: nat | DeliversMap(true, ep, acts, k) ::
               JudgedByQuery(acts[k].j, locales, metadata, BuildQuery(e, []), num)
    ensures Run(Start(true, ep), acts).value.thread.flag == 0 <==> exists f :: f in locales && Compatible(e, f)
  {
    var k := ResultIsVerdict(ep, acts);
    PlainQueryNeverFails(locales, metadata, e, num);
  }
}
