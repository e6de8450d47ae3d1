/** Features as read from their info.yaml files. */
module FeatureCatalog {
  import opened IncludeGraph

  datatype Feature = Feature(ftype: string, includes: seq<string>, excludes: seq<string>)

  type Catalog = map<string, Feature>

  function InclusionGraph(all: Catalog): Graph {
    map name | name in all :: all[name].includes
  }

  /** A name without a feature has the zero feature, which excludes nothing. */
  function Excludes(all: Catalog, v: string): seq<string> {
    if v in all then all[v].excludes else []
  }

  /** The names excluded by the members of `s`. */
  function ExcludedBy(all: Catalog, s: set<string>): set<string> {
    set v, e | v in s && e in Excludes(all, v) :: e
  }

  lemma ExcludedByExactly(all: Catalog, s: set<string>, x: string)
    ensures x in ExcludedBy(all, s) <==> exists v :: v in s && v in all && x in all[v].excludes
  {
    if v :| v in s && v in all && x in all[v].excludes {
      assert x in Excludes(all, v);
    }
    if x in ExcludedBy(all, s) {
      var v :| v in s && x in Excludes(all, v);
      assert v in all && x in all[v].excludes;
    }
  }
}
