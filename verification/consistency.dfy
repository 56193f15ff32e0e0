/**
 Relations between the analyses of one RIB file: every origin AS that the
 growth ranking or the path-length tracker sees is one of the AS tokens the
 unique-AS count counts.
 */
module Consistency {
  import opened Elements
  import opened Tokens
  import Snapshot
  import Growth
  import PathLength

  lemma LastTokenIsToken(toks: seq<string>)
    requires toks != []
    ensures toks[|toks| - 1] in toks
  {
  }

  /** The origins holding prefix sets in a file are among its distinct AS tokens, so there are no more of them. */
  lemma GrowthOriginsAreAses(file: File)
    ensures Growth.OriginPrefixes(file).Keys <= Snapshot.AsSet(file)
    ensures |Growth.OriginPrefixes(file).Keys| <= |Snapshot.AsSet(file)|
  {
    var snap := Growth.OriginPrefixes(file);
    Growth.OriginPrefixesExact(file);
    Snapshot.AsSetExact(file);
    forall o | o in snap ensures Snapshot.CarriesAs(file, o) {
      assert snap[o] != {};
      var p :| p in snap[o];
      assert Growth.Recorded(snap, o, p);
      var i :| 0 <= i < |file| && Growth.OriginPrefix(file[i]) == Some((o, p));
      var toks := Split(file[i].asPath.value);
      LastTokenIsToken(toks);
      assert o in Snapshot.PathTokens(file[i]);
    }
    Subset(snap.Keys, Snapshot.AsSet(file));
  }

  /** The origins with a shortest path in a file are among its distinct AS tokens. */
  lemma PathOriginsAreAses(file: File)
    ensures PathLength.MinPaths(file).Keys <= Snapshot.AsSet(file)
    ensures |PathLength.MinPaths(file).Keys| <= |Snapshot.AsSet(file)|
  {
    var m := PathLength.MinPaths(file);
    Snapshot.AsSetExact(file);
    forall o | o in m ensures Snapshot.CarriesAs(file, o) {
      PathLength.MinPathsKeys(file, o);
      var i :| 0 <= i < |file| && PathLength.PathSample(file[i]).Some? && PathLength.PathSample(file[i]).value.0 == o;
      var toks := Split(file[i].asPath.value);
      LastTokenIsToken(toks);
      assert o in Snapshot.PathTokens(file[i]);
    }
    Subset(m.Keys, Snapshot.AsSet(file));
  }

  lemma Subset<T>(a: set<T>, b: set<T>)
    requires a <= b
    ensures |a| <= |b|
  {
    assert b == a + (b - a);
  }
}
