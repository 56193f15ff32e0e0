/**
 Task 1C: ranking origin ASes by the growth of the number of prefixes they
 originate between their first and their last appearance.

 `bgpm.py` iterates a Python set of origin ASes, whose order is
 hash-randomised; that order is the parameter `order` here, and every
 property below holds for any order that lists each origin once.
 */
module Growth {
  import opened Elements
  import opened Tokens

  /** The prefixes each origin AS originates in one snapshot (one RIB file). */
  type OriginSets = map<string, set<string>>

  /** How many origin ASes the ranking keeps. */
  const RankLimit: nat := 10

  /**
   The (origin, prefix) pair an element contributes: it needs a non-empty
   'as-path' field with at least one token and a 'prefix' field (present,
   possibly empty); the origin is the last token of the path.
   */
  function OriginPrefix(e: Elem): (r: Option<(string, string)>)
  {
    if e.asPath.Some? && e.asPath.value != "" && e.prefix.Some? then
      var toks := Split(e.asPath.value);
      if toks == [] then None else Some((toks[|toks| - 1], e.prefix.value))
    else None
  }

  /** Some element of the file contributes `p` to the prefixes of origin `o`. */
  predicate Originates(file: File, o: string, p: string)
  {
    exists i :: 0 <= i < |file| && OriginPrefix(file[i]) == Some((o, p))
  }

  predicate Recorded(snap: OriginSets, o: string, p: string)
  {
    o in snap && p in snap[o]
  }

  /** Every origin kept in a snapshot has at least one prefix. */
  predicate NoEmptySets(snap: OriginSets)
  {
    forall o :: o in snap ==> snap[o] != {}
  }

  /** Groups (origin, prefix) pairs into per-origin prefix sets, front to back. */
  function Collect(ps: seq<Option<(string, string)>>): (r: OriginSets)
    ensures NoEmptySets(r)
  {
    if ps == [] then map[]
    else
      var r := Collect(ps[..|ps| - 1]);
      match ps[|ps| - 1]
      case None => r
      case Some((o, p)) => r[o := (if o in r then r[o] else {}) + {p}]
  }

  /** Origin `o` holds prefix `p` after grouping exactly when the pair (o, p) was among the inputs. */
  lemma {:induction false} CollectExact(ps: seq<Option<(string, string)>>)
    ensures forall o, p :: Recorded(Collect(ps), o, p) <==> exists i :: 0 <= i < |ps| && ps[i] == Some((o, p))
  {
    if ps != [] {
      var init := ps[..|ps| - 1];
      CollectExact(init);
      forall o, p ensures Recorded(Collect(ps), o, p) <==> exists i :: 0 <= i < |ps| && ps[i] == Some((o, p)) {
        if exists i :: 0 <= i < |init| && init[i] == Some((o, p)) {
          var i :| 0 <= i < |init| && init[i] == Some((o, p));
          assert ps[i] == init[i];
        }
        if ps[|ps| - 1] != Some((o, p)) && exists i :: 0 <= i < |ps| && ps[i] == Some((o, p)) {
          var i :| 0 <= i < |ps| && ps[i] == Some((o, p));
          assert i < |init| && init[i] == ps[i];
        }
      }
    }
  }

  /** The per-origin prefix sets of one file, built element by element. */
  function OriginPrefixes(file: File): (r: OriginSets)
    ensures NoEmptySets(r)
  {
    Collect(seq(|file|, i requires 0 <= i < |file| => OriginPrefix(file[i])))
  }

  /** Origin `o` holds prefix `p` in a file's snapshot exactly when some element of the file contributes the pair. */
  lemma OriginPrefixesExact(file: File)
    ensures forall o, p :: Recorded(OriginPrefixes(file), o, p) <==> Originates(file, o, p)
  {
    var ps := seq(|file|, i requires 0 <= i < |file| => OriginPrefix(file[i]));
    CollectExact(ps);
    forall o, p ensures Recorded(OriginPrefixes(file), o, p) <==> Originates(file, o, p) {
      if Originates(file, o, p) {
        var i :| 0 <= i < |file| && OriginPrefix(file[i]) == Some((o, p));
        assert ps[i] == Some((o, p));
      }
    }
  }

  /** The snapshots of all files, in file order. */
  function Snapshots(files: seq<File>): (r: seq<OriginSets>)
    ensures |r| == |files|
    ensures forall i :: 0 <= i < |files| ==> r[i] == OriginPrefixes(files[i])
  {
    seq(|files|, i requires 0 <= i < |files| => OriginPrefixes(files[i]))
  }

  predicate WellFormed(snaps: seq<OriginSets>)
  {
    forall i :: 0 <= i < |snaps| ==> NoEmptySets(snaps[i])
  }

  /** Every origin AS appearing in some snapshot. */
  function AllOrigins(snaps: seq<OriginSets>): (r: set<string>)
  {
    set i, o | 0 <= i < |snaps| && o in snaps[i] :: o
  }

  /** The index of the first snapshot in which `o` appears. */
  function FirstPresence(snaps: seq<OriginSets>, o: string): (r: Option<nat>)
    ensures r.Some? ==> r.value < |snaps| && o in snaps[r.value]
    ensures r.Some? ==> forall j :: 0 <= j < r.value ==> o !in snaps[j]
    ensures r.None? ==> forall j :: 0 <= j < |snaps| ==> o !in snaps[j]
  {
    if snaps == [] then None
    else if o in snaps[0] then Some(0)
    else match FirstPresence(snaps[1..], o)
      case None => None
      case Some(k) => Some(k + 1)
  }

  /** The index of the last snapshot in which `o` appears. */
  function LastPresence(snaps: seq<OriginSets>, o: string): (r: Option<nat>)
    ensures r.Some? ==> r.value < |snaps| && o in snaps[r.value]
    ensures r.Some? ==> forall j :: r.value < j < |snaps| ==> o !in snaps[j]
    ensures r.None? ==> forall j :: 0 <= j < |snaps| ==> o !in snaps[j]
  {
    if snaps == [] then None
    else if o in snaps[|snaps| - 1] then Some(|snaps| - 1)
    else LastPresence(snaps[..|snaps| - 1], o)
  }

  /**
   The growth of `o`: (c_last - c_first) / c_first over the sizes of its
   prefix sets at its first and last appearance; none when it appears in at
   most one snapshot or its first set is empty.
   */
  function GrowthOf(snaps: seq<OriginSets>, o: string): (r: Option<real>)
  {
    var first := FirstPresence(snaps, o);
    if first.None? then None
    else
      var last := LastPresence(snaps, o);
      if last.None? || first.value == last.value then None
      else
        var c1 := |snaps[first.value][o]|;
        var c2 := |snaps[last.value][o]|;
        if c1 > 0 then Some((c2 - c1) as real / c1 as real) else None
  }

  /** `o` appears in two different snapshots. */
  predicate InTwoSnapshots(snaps: seq<OriginSets>, o: string)
  {
    exists i, j :: 0 <= i < j < |snaps| && o in snaps[i] && o in snaps[j]
  }

  /**
   An origin gets a growth exactly when it appears in two different
   snapshots; the guard on an empty first set never fires, since the
   snapshots keep no empty set.
   */
  lemma GrowthDefinedIff(snaps: seq<OriginSets>, o: string)
    requires WellFormed(snaps)
    ensures GrowthOf(snaps, o).Some? <==> InTwoSnapshots(snaps, o)
    ensures GrowthOf(snaps, o).Some? ==>
      && FirstPresence(snaps, o).Some? && LastPresence(snaps, o).Some?
      && FirstPresence(snaps, o).value < LastPresence(snaps, o).value
  {
    var first := FirstPresence(snaps, o);
    var last := LastPresence(snaps, o);
    if InTwoSnapshots(snaps, o) {
      var i, j :| 0 <= i < j < |snaps| && o in snaps[i] && o in snaps[j];
      assert first.Some? && last.Some?;
      assert first.value <= i;
      assert j <= last.value;
      assert NoEmptySets(snaps[first.value]);
      assert |snaps[first.value][o]| > 0;
    }
    if first.Some? && last.Some? && first.value != last.value {
      assert first.value <= last.value;
      assert InTwoSnapshots(snaps, o) by {
        assert 0 <= first.value < last.value < |snaps|;
        assert o in snaps[first.value] && o in snaps[last.value];
      }
    }
  }

  /** Snapshots built from files keep no empty prefix set. */
  lemma SnapshotsWellFormed(files: seq<File>)
    ensures WellFormed(Snapshots(files))
  {
  }

  /** An origin AS with its growth. */
  datatype Ranked = Ranked(origin: string, growth: real)

  /** The origins of `order` that have a growth, with it, in `order`'s order. */
  function Candidates(snaps: seq<OriginSets>, order: seq<string>): (r: seq<Ranked>)
    ensures forall k :: 0 <= k < |r| ==> r[k].origin in order && GrowthOf(snaps, r[k].origin) == Some(r[k].growth)
    ensures forall o :: o in order && GrowthOf(snaps, o).Some? ==> Ranked(o, GrowthOf(snaps, o).value) in r
  {
    if order == [] then []
    else
      var rest := Candidates(snaps, order[1..]);
      match GrowthOf(snaps, order[0])
      case Some(g) => [Ranked(order[0], g)] + rest
      case None => rest
  }

  predicate Descending(s: seq<Ranked>)
  {
    forall i, j :: 0 <= i < j < |s| ==> s[i].growth >= s[j].growth
  }

  predicate Ascending(s: seq<Ranked>)
  {
    forall i, j :: 0 <= i < j < |s| ==> s[i].growth <= s[j].growth
  }

  predicate DistinctOrigins(s: seq<Ranked>)
  {
    forall i, j :: 0 <= i < j < |s| ==> s[i].origin != s[j].origin
  }

  predicate DistinctNames(s: seq<string>)
  {
    forall i, j :: 0 <= i < j < |s| ==> s[i] != s[j]
  }

  /**
   Inserts `x` after every element whose growth is at least its own, which
   keeps equal growths in insertion order, as a stable sort does.
   */
  function Insert(x: Ranked, s: seq<Ranked>): (r: seq<Ranked>)
    ensures multiset(r) == multiset(s) + multiset{x}
  {
    if s == [] || s[0].growth < x.growth then
      [x] + s
    else
      assert s == [s[0]] + s[1..];
      [s[0]] + Insert(x, s[1..])
  }

  lemma InsertMembers(x: Ranked, s: seq<Ranked>)
    ensures forall y :: y in Insert(x, s) <==> y == x || y in s
  {
    var r := Insert(x, s);
    forall y ensures y in r <==> y == x || y in s {
      assert y in r <==> y in multiset(r);
      assert y in s <==> y in multiset(s);
    }
  }

  lemma {:induction false} InsertKeepsOrder(x: Ranked, s: seq<Ranked>)
    requires Descending(s)
    ensures Descending(Insert(x, s))
  {
    if s != [] && s[0].growth >= x.growth {
      var rest := Insert(x, s[1..]);
      InsertKeepsOrder(x, s[1..]);
      InsertMembers(x, s[1..]);
      var r := [s[0]] + rest;
      forall j | 1 <= j < |r| ensures s[0].growth >= r[j].growth {
        assert r[j] == rest[j - 1] && rest[j - 1] in rest;
        if r[j] != x {
          var m :| 0 <= m < |s[1..]| && s[1..][m] == r[j];
          assert s[m + 1] == r[j];
        }
      }
      forall i, j | 0 <= i < j < |r| ensures r[i].growth >= r[j].growth {
        if i > 0 {
          assert r[i] == rest[i - 1] && r[j] == rest[j - 1];
        }
      }
    }
  }

  lemma {:induction false} InsertKeepsDistinct(x: Ranked, s: seq<Ranked>)
    requires DistinctOrigins(s)
    requires forall y :: y in s ==> y.origin != x.origin
    ensures DistinctOrigins(Insert(x, s))
  {
    if s != [] && s[0].growth >= x.growth {
      var rest := Insert(x, s[1..]);
      InsertKeepsDistinct(x, s[1..]);
      var r := [s[0]] + rest;
      forall j | 1 <= j < |r| ensures s[0].origin != r[j].origin {
        assert r[j] in multiset(rest);
        if r[j] != x {
          assert r[j] in s[1..];
          var k :| 0 <= k < |s[1..]| && s[1..][k] == r[j];
          assert s[k + 1] == r[j];
        }
      }
    }
  }

  /** Python's `sorted(items, key=lambda x: -x[1])`: a stable sort by descending growth. */
  function SortDescending(xs: seq<Ranked>): (r: seq<Ranked>)
    ensures multiset(r) == multiset(xs)
    ensures Descending(r)
  {
    if xs == [] then []
    else
      var init := xs[..|xs| - 1];
      var x := xs[|xs| - 1];
      assert xs == init + [x];
      var sorted := SortDescending(init);
      InsertKeepsOrder(x, sorted);
      Insert(x, sorted)
  }

  /** Sorting a list of distinct ASes keeps them distinct. */
  lemma {:induction false} SortKeepsDistinct(xs: seq<Ranked>)
    requires DistinctOrigins(xs)
    ensures DistinctOrigins(SortDescending(xs))
  {
    if xs != [] {
      var init := xs[..|xs| - 1];
      var x := xs[|xs| - 1];
      var sorted := SortDescending(init);
      SortKeepsDistinct(init);
      forall y | y in sorted ensures y.origin != x.origin {
        assert y in multiset(init);
        var k :| 0 <= k < |init| && init[k] == y;
        assert xs[k] == y;
      }
      InsertKeepsDistinct(x, sorted);
    }
  }

  function Reverse<T>(s: seq<T>): (r: seq<T>)
    ensures |r| == |s|
    ensures forall i :: 0 <= i < |s| ==> r[i] == s[|s| - 1 - i]
  {
    if s == [] then [] else Reverse(s[1..]) + [s[0]]
  }

  /** Python's `[:10]`: the first ten entries, or all of them when there are fewer. */
  function KeepTop(s: seq<Ranked>): (r: seq<Ranked>)
  {
    if |s| <= RankLimit then s else s[..RankLimit]
  }

  /** Keep the first ten of a sorted list and reverse them. */
  function Cut(sorted: seq<Ranked>): (r: seq<Ranked>)
  {
    Reverse(KeepTop(sorted))
  }

  /** Sort by descending growth, keep the first ten, reverse: the kept ASes in ascending growth. */
  function Rank(cands: seq<Ranked>): (r: seq<Ranked>)
  {
    Cut(SortDescending(cands))
  }

  function RankedTop(snaps: seq<OriginSets>, order: seq<string>): (r: seq<Ranked>)
  {
    Rank(Candidates(snaps, order))
  }

  /** `o` is the origin of some entry of `r`. */
  predicate Lists(r: seq<Ranked>, o: string)
  {
    exists k :: 0 <= k < |r| && r[k].origin == o
  }

  /** Reversing a descending list gives an ascending one, with the same (distinct) ASes. */
  lemma ReverseDescending(s: seq<Ranked>)
    requires Descending(s)
    ensures Ascending(Reverse(s))
    ensures DistinctOrigins(s) ==> DistinctOrigins(Reverse(s))
  {
    var r := Reverse(s);
    forall i, j | 0 <= i < j < |r| ensures r[i].growth <= r[j].growth {
      assert r[i] == s[|s| - 1 - i] && r[j] == s[|s| - 1 - j];
    }
    if DistinctOrigins(s) {
      forall i, j | 0 <= i < j < |r| ensures r[i].origin != r[j].origin {
        assert r[i] == s[|s| - 1 - i] && r[j] == s[|s| - 1 - j];
      }
    }
  }

  /** An entry of a descending list that the cut leaves out grows no more than any entry kept. */
  lemma LeftOutNotGreater(sorted: seq<Ranked>, y: Ranked)
    requires Descending(sorted)
    requires y in sorted
    requires forall k :: 0 <= k < |KeepTop(sorted)| ==> KeepTop(sorted)[k].origin != y.origin
    ensures forall k :: 0 <= k < |KeepTop(sorted)| ==> y.growth <= KeepTop(sorted)[k].growth
  {
    var top := KeepTop(sorted);
    var j :| 0 <= j < |sorted| && sorted[j] == y;
    if j < |top| {
      assert false;
    }
    forall k | 0 <= k < |top| ensures y.growth <= top[k].growth {
      assert top[k] == sorted[k];
    }
  }

  /** Sorting neither adds nor drops an entry. */
  lemma SortedMembers(cands: seq<Ranked>)
    ensures |SortDescending(cands)| == |cands|
    ensures forall y :: y in SortDescending(cands) <==> y in cands
  {
    var sorted := SortDescending(cands);
    assert |multiset(sorted)| == |multiset(cands)|;
    forall y ensures y in sorted <==> y in cands {
      assert y in sorted <==> y in multiset(sorted);
      assert y in cands <==> y in multiset(cands);
    }
  }

  /** The cut keeps min(10, |sorted|) entries, each from the sorted list, and all of them when there are at most ten. */
  lemma CutMembers(sorted: seq<Ranked>)
    ensures |Cut(sorted)| == if |sorted| <= RankLimit then |sorted| else RankLimit
    ensures forall k :: 0 <= k < |Cut(sorted)| ==> Cut(sorted)[k] in sorted
    ensures |sorted| <= RankLimit ==> forall y :: y in sorted ==> y in Cut(sorted)
  {
    var top := KeepTop(sorted);
    var r := Cut(sorted);
    forall k | 0 <= k < |r| ensures r[k] in sorted {
      assert r[k] == top[|top| - 1 - k] == sorted[|top| - 1 - k];
    }
    if |sorted| <= RankLimit {
      forall y | y in sorted ensures y in r {
        var j :| 0 <= j < |sorted| && sorted[j] == y;
        assert r[|sorted| - 1 - j] == y;
      }
    }
  }

  /** An entry of a descending list whose AS the cut does not list grows no more than any entry kept. */
  lemma CutLeftOut(sorted: seq<Ranked>, y: Ranked)
    requires Descending(sorted)
    requires y in sorted && !Lists(Cut(sorted), y.origin)
    ensures forall k :: 0 <= k < |Cut(sorted)| ==> y.growth <= Cut(sorted)[k].growth
  {
    var top := KeepTop(sorted);
    var r := Cut(sorted);
    forall k | 0 <= k < |top| ensures top[k].origin != y.origin {
      assert r[|top| - 1 - k] == top[k];
    }
    LeftOutNotGreater(sorted, y);
    forall k | 0 <= k < |r| ensures y.growth <= r[k].growth {
      assert r[k] == top[|top| - 1 - k];
    }
  }

  /** The cut of a descending list is ascending, and keeps distinct ASes distinct. */
  lemma CutAscending(sorted: seq<Ranked>)
    requires Descending(sorted)
    ensures Ascending(Cut(sorted))
    ensures DistinctOrigins(sorted) ==> DistinctOrigins(Cut(sorted))
  {
    var top := KeepTop(sorted);
    assert Descending(top) by {
      forall i, j | 0 <= i < j < |top| ensures top[i].growth >= top[j].growth {
        assert top[i] == sorted[i] && top[j] == sorted[j];
      }
    }
    if DistinctOrigins(sorted) {
      assert DistinctOrigins(top) by {
        forall i, j | 0 <= i < j < |top| ensures top[i].origin != top[j].origin {
          assert top[i] == sorted[i] && top[j] == sorted[j];
        }
      }
    }
    ReverseDescending(top);
  }

  /** The cut of any descending rearrangement of the candidates is their top ten, in ascending growth. */
  lemma CutIsTopTen(sorted: seq<Ranked>, cands: seq<Ranked>)
    requires Descending(sorted)
    requires |sorted| == |cands|
    requires forall y :: y in sorted <==> y in cands
    requires DistinctOrigins(cands) ==> DistinctOrigins(sorted)
    ensures Ascending(Cut(sorted))
    ensures |Cut(sorted)| == if |cands| <= RankLimit then |cands| else RankLimit
    ensures forall k :: 0 <= k < |Cut(sorted)| ==> Cut(sorted)[k] in cands
    ensures forall y :: y in cands && !Lists(Cut(sorted), y.origin) ==>
      forall k :: 0 <= k < |Cut(sorted)| ==> y.growth <= Cut(sorted)[k].growth
    ensures DistinctOrigins(cands) ==> DistinctOrigins(Cut(sorted))
    ensures |cands| <= RankLimit ==> forall y :: y in cands ==> y in Cut(sorted)
  {
    CutMembers(sorted);
    CutAscending(sorted);
    forall y | y in cands && !Lists(Cut(sorted), y.origin)
      ensures forall k :: 0 <= k < |Cut(sorted)| ==> y.growth <= Cut(sorted)[k].growth
    {
      CutLeftOut(sorted, y);
    }
  }

  /**
   The ranking of a candidate list is in non-decreasing growth, keeps
   min(10, candidates) entries, each a candidate, and no candidate left out
   grows more than any entry kept.
   */
  lemma RankIsTopTen(cands: seq<Ranked>)
    ensures Ascending(Rank(cands))
    ensures |Rank(cands)| == if |cands| <= RankLimit then |cands| else RankLimit
    ensures forall k :: 0 <= k < |Rank(cands)| ==> Rank(cands)[k] in cands
    ensures forall y :: y in cands && !Lists(Rank(cands), y.origin) ==>
      forall k :: 0 <= k < |Rank(cands)| ==> y.growth <= Rank(cands)[k].growth
    ensures DistinctOrigins(cands) ==> DistinctOrigins(Rank(cands))
    ensures |cands| <= RankLimit ==> forall y :: y in cands ==> y in Rank(cands)
  {
    SortedMembers(cands);
    if DistinctOrigins(cands) {
      SortKeepsDistinct(cands);
    }
    CutIsTopTen(SortDescending(cands), cands);
  }

  function Origins(s: seq<Ranked>): (r: seq<string>)
    ensures |r| == |s|
    ensures forall i :: 0 <= i < |s| ==> r[i] == s[i].origin
  {
    seq(|s|, i requires 0 <= i < |s| => s[i].origin)
  }

  /** Task 1C: the origin ASes of the ranking. */
  function TopAsesByPrefixGrowth(files: seq<File>, order: seq<string>): (r: seq<string>)
    ensures |r| <= RankLimit
    ensures forall i :: 0 <= i < |r| ==> InTwoSnapshots(Snapshots(files), r[i])
  {
    var snaps := Snapshots(files);
    SnapshotsWellFormed(files);
    RankedTopQualifies(snaps, order);
    Origins(RankedTop(snaps, order))
  }

  /** `order` lists every origin of the snapshots exactly once, as iterating a set does. */
  predicate Enumerates(order: seq<string>, snaps: seq<OriginSets>)
  {
    && DistinctNames(order)
    && (set o | o in order) == AllOrigins(snaps)
  }

  /**
   The ranking keeps at most ten ASes, each reported with its growth, and
   each present in two different snapshots.
   */
  lemma RankedTopQualifies(snaps: seq<OriginSets>, order: seq<string>)
    requires WellFormed(snaps)
    ensures |RankedTop(snaps, order)| <= RankLimit
    ensures forall k :: 0 <= k < |RankedTop(snaps, order)| ==>
      && GrowthOf(snaps, RankedTop(snaps, order)[k].origin) == Some(RankedTop(snaps, order)[k].growth)
      && InTwoSnapshots(snaps, RankedTop(snaps, order)[k].origin)
  {
    var cands := Candidates(snaps, order);
    var r := RankedTop(snaps, order);
    RankIsTopTen(cands);
    forall k | 0 <= k < |r|
      ensures GrowthOf(snaps, r[k].origin) == Some(r[k].growth) && InTwoSnapshots(snaps, r[k].origin)
    {
      GrowthDefinedIff(snaps, r[k].origin);
    }
  }

  /**
   The ranking lists distinct ASes in non-decreasing growth; it holds
   min(10, number of qualifying ASes) of them, and no qualifying AS left out
   has a growth strictly greater than any AS kept: the ten highest growths,
   reversed.
   */
  lemma RankedTopIsTopTenAscending(snaps: seq<OriginSets>, order: seq<string>)
    requires Enumerates(order, snaps)
    ensures Ascending(RankedTop(snaps, order))
    ensures DistinctOrigins(RankedTop(snaps, order))
    ensures |RankedTop(snaps, order)| == if |Candidates(snaps, order)| <= RankLimit then |Candidates(snaps, order)| else RankLimit
    ensures forall o :: GrowthOf(snaps, o).Some? && !Lists(RankedTop(snaps, order), o) ==>
      forall k :: 0 <= k < |RankedTop(snaps, order)| ==> GrowthOf(snaps, o).value <= RankedTop(snaps, order)[k].growth
  {
    var cands := Candidates(snaps, order);
    CandidatesDistinct(snaps, order);
    RankIsTopTen(cands);
    forall o | GrowthOf(snaps, o).Some?
      ensures Ranked(o, GrowthOf(snaps, o).value) in cands
    {
      var i := FirstPresence(snaps, o).value;
      assert o in AllOrigins(snaps);
    }
  }

  /** Fewer than ten ASes ranked means every AS with a growth is ranked: the list is never padded or cut short. */
  lemma TopShortHoldsAll(snaps: seq<OriginSets>, order: seq<string>)
    requires Enumerates(order, snaps)
    ensures |RankedTop(snaps, order)| < RankLimit ==>
      forall o :: GrowthOf(snaps, o).Some? ==> Lists(RankedTop(snaps, order), o)
  {
    var top := RankedTop(snaps, order);
    var cands := Candidates(snaps, order);
    RankIsTopTen(cands);
    if |top| < RankLimit {
      forall o | GrowthOf(snaps, o).Some? ensures Lists(top, o) {
        var y := Ranked(o, GrowthOf(snaps, o).value);
        assert o in AllOrigins(snaps) by {
          var i := FirstPresence(snaps, o).value;
        }
        assert y in cands;
        var k :| 0 <= k < |top| && top[k] == y;
      }
    }
  }

  lemma {:induction false} CandidatesDistinct(snaps: seq<OriginSets>, order: seq<string>)
    requires DistinctNames(order)
    ensures DistinctOrigins(Candidates(snaps, order))
    decreases |order|
  {
    if order != [] {
      CandidatesDistinct(snaps, order[1..]);
    }
  }
}
