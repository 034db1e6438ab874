/**
 `get_examples` on an existing directory, said without the walk or the
 fold: which entries it classifies, when it succeeds, what it returns and
 which error it reports.
 */
module CatalogBuild {
  import opened Wrappers
  import opened Seqs
  import opened Tree
  import opened Catalog
  import opened CatalogWalk
  import opened CatalogProofs

  /** The entries classified are exactly those reached from a category. */
  lemma ClassifiedAreReached(cs: seq<Entry>)
    ensures forall v :: v in Visits(cs) <==> Reached(cs, v)
  {
    forall v
      ensures v in Visits(cs) <==> Reached(cs, v)
    {
      VisitsMembers(cs, v);
    }
  }

  /** Success of the fold over the walk, said of the reached entries. */
  lemma SucceedsOnReached(cs: seq<Entry>, host: Host)
    ensures Collect(Visits(cs), host).Success? <==> forall v :: Reached(cs, v) ==> Classify(v, host).Success?
  {
    var vs := Visits(cs);
    CollectSucceeds(vs, host);
    ClassifiedAreReached(cs);
    if forall i :: 0 <= i < |vs| ==> Classify(vs[i], host).Success? {
      forall v | Reached(cs, v)
        ensures Classify(v, host).Success?
      {
        var i :| 0 <= i < |vs| && vs[i] == v;
      }
    }
  }

  /**
   A build of an existing directory with entries `cs`:
   - it succeeds exactly when every entry reached from a category
     classifies;
   - it then holds each classified entry's record, and each ignored path,
     in walk order;
   - otherwise its error is that of the first classified entry, in walk
     order, whose classification fails, and that entry is reached from a
     category.
   */
  lemma GetExamplesOfDir(n: string, cs: seq<Entry>, host: Host)
    ensures forall v :: v in Visits(cs) <==> Reached(cs, v)
    ensures GetExamples(Some(Dir(n, cs)), host).Success? <==>
      forall v :: Reached(cs, v) ==> Classify(v, host).Success?
    ensures GetExamples(Some(Dir(n, cs)), host).Success? ==>
      GetExamples(Some(Dir(n, cs)), host).value
        == Catalog(FlatMap(v => YieldedOf(Classify(v, host)), Visits(cs)),
                   FlatMap(v => IgnoredOf(Classify(v, host)), Visits(cs)))
    ensures GetExamples(Some(Dir(n, cs)), host).Failure? ==>
      exists k :: && FirstFailure(Visits(cs), v => Classify(v, host), k)
                  && Reached(cs, Visits(cs)[k])
                  && GetExamples(Some(Dir(n, cs)), host).error == Classify(Visits(cs)[k], host).error
  {
    var vs := Visits(cs);
    assert GetExamples(Some(Dir(n, cs)), host) == Collect(vs, host);
    ClassifiedAreReached(cs);
    SucceedsOnReached(cs, host);
    if Collect(vs, host).Success? {
      CollectContents(vs, host);
    } else {
      CollectFailure(vs, host);
    }
  }
}
