/**
 Per-snapshot population counts: how many distinct prefixes and how many
 distinct AS numbers each RIB capture file carries.
 */
module Snapshot {
  import opened Elements
  import opened Tokens

  /** The tokens of an element's AS path; none when the element has no 'as-path' field. */
  function PathTokens(e: Elem): (r: seq<string>)
  {
    if e.asPath.Some? then Split(e.asPath.value) else []
  }

  /** Some element of the file carries prefix `p` in its 'prefix' field. */
  predicate CarriesPrefix(file: File, p: string)
  {
    exists i :: 0 <= i < |file| && file[i].prefix == Some(p)
  }

  /** Some element of the file has `a` among the tokens of its AS path. */
  predicate CarriesAs(file: File, a: string)
  {
    exists i :: 0 <= i < |file| && a in PathTokens(file[i])
  }

  /**
   The distinct prefixes of one file. Only the presence of the 'prefix'
   field is tested, so an empty prefix string is counted like any other.
   */
  function PrefixSet(file: File): (r: set<string>)
  {
    if file == [] then {}
    else
      var rest := PrefixSet(file[..|file| - 1]);
      match file[|file| - 1].prefix
      case Some(p) => rest + {p}
      case None => rest
  }

  /** A prefix is counted for a file exactly when some element of the file carries it. */
  lemma {:induction false} PrefixSetExact(file: File)
    ensures forall p :: p in PrefixSet(file) <==> CarriesPrefix(file, p)
  {
    if file != [] {
      var init := file[..|file| - 1];
      PrefixSetExact(init);
      forall p ensures p in PrefixSet(file) <==> CarriesPrefix(file, p) {
        if CarriesPrefix(init, p) {
          var i :| 0 <= i < |init| && init[i].prefix == Some(p);
          assert file[i] == init[i];
        }
        if CarriesPrefix(file, p) && file[|file| - 1].prefix != Some(p) {
          var i :| 0 <= i < |file| && file[i].prefix == Some(p);
          assert i < |init| && init[i] == file[i];
        }
      }
    }
  }

  /** The tokens of one element, as a set. */
  function TokenSet(e: Elem): (r: set<string>)
  {
    Distinct(PathTokens(e))
  }

  /** The union of a sequence of sets, accumulated front to back. */
  function Union(ss: seq<set<string>>): (r: set<string>)
    ensures forall a :: a in r <==> exists i :: 0 <= i < |ss| && a in ss[i]
  {
    if ss == [] then {}
    else
      var init := ss[..|ss| - 1];
      var r := Union(init) + ss[|ss| - 1];
      assert forall i :: 0 <= i < |init| ==> init[i] == ss[i];
      r
  }

  /** The distinct AS tokens of one file: every token of every path, not only origins. */
  function AsSet(file: File): (r: set<string>)
  {
    Union(seq(|file|, i requires 0 <= i < |file| => TokenSet(file[i])))
  }

  /** An AS is counted for a file exactly when it is a token of some element's path. */
  lemma AsSetExact(file: File)
    ensures forall a :: a in AsSet(file) <==> CarriesAs(file, a)
  {
    var ss := seq(|file|, i requires 0 <= i < |file| => TokenSet(file[i]));
    forall a ensures a in AsSet(file) <==> CarriesAs(file, a) {
      if a in AsSet(file) {
        var i :| 0 <= i < |ss| && a in ss[i];
        assert a in PathTokens(file[i]);
      }
      if CarriesAs(file, a) {
        var i :| 0 <= i < |file| && a in PathTokens(file[i]);
        assert a in ss[i];
      }
    }
  }

  /** The size of each set, in order: the `append(len(...))` at the end of each file's loop. */
  function Sizes(sets: seq<set<string>>): (r: seq<nat>)
    ensures |r| == |sets|
    ensures forall i :: 0 <= i < |sets| ==> r[i] == |sets[i]|
  {
    if sets == [] then [] else Sizes(sets[..|sets| - 1]) + [|sets[|sets| - 1]|]
  }

  /** Task 1A: one unique-prefix count per file, in file order. */
  function UniquePrefixesBySnapshot(files: seq<File>): (r: seq<nat>)
    ensures |r| == |files|
    ensures forall i :: 0 <= i < |files| ==> r[i] == |PrefixSet(files[i])|
  {
    Sizes(seq(|files|, i requires 0 <= i < |files| => PrefixSet(files[i])))
  }

  /** Task 1B: one unique-AS count per file, in file order. */
  function UniqueAsesBySnapshot(files: seq<File>): (r: seq<nat>)
    ensures |r| == |files|
    ensures forall i :: 0 <= i < |files| ==> r[i] == |AsSet(files[i])|
  {
    Sizes(seq(|files|, i requires 0 <= i < |files| => AsSet(files[i])))
  }

  /** A prefix repeated within a file is counted once: the count never exceeds the number of elements. */
  lemma {:induction false} PrefixCountAtMostElems(file: File)
    ensures |PrefixSet(file)| <= |file|
  {
    if file != [] {
      var init := file[..|file| - 1];
      PrefixCountAtMostElems(init);
      match file[|file| - 1].prefix
      case Some(p) =>
        assert PrefixSet(file) == PrefixSet(init) + {p};
      case None =>
    }
  }

  /** Appending an element whose prefix is already in the file leaves the count unchanged. */
  lemma DuplicatePrefixCountsOnce(file: File, e: Elem)
    requires e.prefix.Some?
    requires CarriesPrefix(file, e.prefix.value)
    ensures |PrefixSet(file + [e])| == |PrefixSet(file)|
  {
    var p := e.prefix.value;
    PrefixSetExact(file);
    assert (file + [e])[..|file|] == file;
    assert PrefixSet(file + [e]) == PrefixSet(file) + {p};
    assert p in PrefixSet(file);
    assert PrefixSet(file) + {p} == PrefixSet(file);
  }
}
