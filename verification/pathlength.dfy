/**
 Task 2: for every origin AS, the shortest AS-path length observed in each
 snapshot, where a path's length is its number of distinct AS tokens (so
 prepended repetitions count once) and paths of length at most one are not
 measurements.
 */
module PathLength {
  import opened Elements
  import opened Tokens

  /** A computation that may raise Python's IndexError instead of returning. */
  datatype Outcome<T> = Ok(value: T) | IndexError

  /**
   The origin and distinct-token length of an element's path, when the
   tracker measures it: the 'as-path' field is present and non-empty, it
   has a token, and it has at least two distinct tokens.
   */
  function PathSample(e: Elem): (r: Option<(string, nat)>)
  {
    if e.asPath.Some? && e.asPath.value != "" then
      var toks := Split(e.asPath.value);
      if toks == [] then None
      else
        var d := |Distinct(toks)|;
        if d <= 1 then None else Some((toks[|toks| - 1], d))
    else None
  }

  /** Some element of the file is a path of `d` distinct tokens ending in `o`. */
  predicate Measured(file: File, o: string, d: nat)
  {
    exists i :: 0 <= i < |file| && PathSample(file[i]) == Some((o, d))
  }

  /** Some element of the file is a measured path ending in `o`. */
  predicate Observed(file: File, o: string)
  {
    exists i :: 0 <= i < |file| && PathSample(file[i]).Some? && PathSample(file[i]).value.0 == o
  }

  /** One element's update of the per-origin minima. */
  function MinStep(m: map<string, nat>, e: Elem): (r: map<string, nat>)
  {
    match PathSample(e)
    case None => m
    case Some((o, d)) => if o !in m || d < m[o] then m[o := d] else m
  }

  /** The shortest measured length per origin in one file, element by element. */
  function MinPaths(file: File): (m: map<string, nat>)
  {
    if file == [] then map[] else MinStep(MinPaths(file[..|file| - 1]), file[|file| - 1])
  }

  /** A measured path is never shorter than two distinct tokens. */
  lemma SampleAtLeastTwo(e: Elem)
    ensures PathSample(e).Some? ==> PathSample(e).value.1 >= 2
  {
  }

  /** Every measured path ending in an origin is at least as long as that origin's entry. */
  lemma {:induction false} MinPathsIsLowerBound(file: File)
    ensures forall i :: 0 <= i < |file| && PathSample(file[i]).Some? ==>
      PathSample(file[i]).value.0 in MinPaths(file) && MinPaths(file)[PathSample(file[i]).value.0] <= PathSample(file[i]).value.1
  {
    if file != [] {
      var init := file[..|file| - 1];
      MinPathsIsLowerBound(init);
      forall i | 0 <= i < |file| && PathSample(file[i]).Some?
        ensures PathSample(file[i]).value.0 in MinPaths(file) && MinPaths(file)[PathSample(file[i]).value.0] <= PathSample(file[i]).value.1
      {
        if i < |init| {
          assert file[i] == init[i];
          var o := PathSample(init[i]).value.0;
          assert o in MinPaths(init);
        }
      }
    }
  }

  /** Each origin's entry is the length of a measured path ending in it, so it is at least two. */
  lemma {:induction false} MinPathsIsAttained(file: File)
    ensures forall o :: o in MinPaths(file) ==> Measured(file, o, MinPaths(file)[o]) && MinPaths(file)[o] >= 2
  {
    if file != [] {
      var init := file[..|file| - 1];
      var last := file[|file| - 1];
      var m0 := MinPaths(init);
      var m := MinPaths(file);
      MinPathsIsAttained(init);
      SampleAtLeastTwo(last);
      forall o | o in m ensures Measured(file, o, m[o]) && m[o] >= 2 {
        if PathSample(last) == Some((o, m[o])) {
          assert file[|file| - 1] == last;
        } else {
          assert o in m0 && m[o] == m0[o];
          var i :| 0 <= i < |init| && PathSample(init[i]) == Some((o, m0[o]));
          assert file[i] == init[i];
        }
      }
    }
  }

  /** An origin has a shortest length in a file exactly when some measured path ends in it. */
  lemma MinPathsKeys(file: File, o: string)
    ensures o in MinPaths(file) <==> Observed(file, o)
  {
    var m := MinPaths(file);
    MinPathsIsLowerBound(file);
    MinPathsIsAttained(file);
    if o in m {
      var i :| 0 <= i < |file| && PathSample(file[i]) == Some((o, m[o]));
    }
  }

  /** Every token is a whitespace character: `split()` yields nothing, so `[-1]` raises. */
  predicate BlankPath(e: Elem)
  {
    e.asPath.Some? && e.asPath.value != "" && AllSpace(e.asPath.value)
  }

  /**
   One element's update as written: the origin is read as the last token
   before anything else is checked, which raises IndexError on a non-empty
   AS-path field made only of whitespace.
   */
  function MinStepAsWritten(m: map<string, nat>, e: Elem): (r: Outcome<map<string, nat>>)
  {
    if e.asPath.Some? && e.asPath.value != "" then
      var toks := Split(e.asPath.value);
      if toks == [] then IndexError
      else
        var origin := toks[|toks| - 1];
        var d := |Distinct(toks)|;
        if d <= 1 then Ok(m)
        else if origin !in m || d < m[origin] then Ok(m[origin := d])
        else Ok(m)
    else Ok(m)
  }

  /** The per-file loop as written: the first raising element ends it. */
  function MinPathsAsWritten(file: File): (r: Outcome<map<string, nat>>)
  {
    if file == [] then Ok(map[])
    else
      match MinPathsAsWritten(file[..|file| - 1])
      case IndexError => IndexError
      case Ok(m) => MinStepAsWritten(m, file[|file| - 1])
  }

  /** An element update as written raises exactly on a blank path and otherwise agrees with the corrected update. */
  lemma StepAsWrittenRaisesOnBlankPath(m: map<string, nat>, e: Elem)
    ensures MinStepAsWritten(m, e) == if BlankPath(e) then IndexError else Ok(MinStep(m, e))
  {
  }

  /** The loop as written raises exactly when the file holds a blank path, and otherwise agrees with `MinPaths`. */
  lemma {:induction false} AsWrittenRaisesOnBlankPath(file: File)
    ensures MinPathsAsWritten(file) ==
      if exists i :: 0 <= i < |file| && BlankPath(file[i]) then IndexError else Ok(MinPaths(file))
  {
    if file != [] {
      var init := file[..|file| - 1];
      var last := file[|file| - 1];
      AsWrittenRaisesOnBlankPath(init);
      StepAsWrittenRaisesOnBlankPath(MinPaths(init), last);
      if exists i :: 0 <= i < |init| && BlankPath(init[i]) {
        var i :| 0 <= i < |init| && BlankPath(init[i]);
        assert file[i] == init[i];
      } else if BlankPath(last) {
      } else {
        forall i | 0 <= i < |file| ensures !BlankPath(file[i]) {
          if i < |init| {
            assert init[i] == file[i];
          }
        }
      }
    }
  }

  /** A one-element RIB file whose AS path is a single space. */
  const BlankPathFile: File := [Elem(0, RibEntry, Some("10.0.0.0/8"), Some(" "), "192.0.2.1", [])]

  /** The loop as written raises on that file, while the corrected one skips the path. */
  lemma BlankPathRaises()
    ensures MinPathsAsWritten(BlankPathFile) == IndexError
    ensures MinPaths(BlankPathFile) == map[]
  {
    assert Split(" ") == Split(" "[1..]);
    assert MinPathsAsWritten(BlankPathFile[..0]) == Ok(map[]);
  }

  /** The corrected loop skips a blank path: appending one changes nothing. */
  lemma MinPathsSkipsBlankPath(file: File, e: Elem)
    requires BlankPath(e)
    ensures MinPaths(file + [e]) == MinPaths(file)
  {
    assert (file + [e])[..|file|] == file;
  }

  function Zeros(n: nat): (r: seq<nat>)
    ensures |r| == n
    ensures forall i :: 0 <= i < n ==> r[i] == 0
  {
    seq(n, i => 0)
  }

  /**
   Sets entry `ndx` of a row to `v`, first extending a row too short for
   that index with zeros.
   */
  function SetEntry(row: seq<nat>, ndx: nat, v: nat): (r: seq<nat>)
    ensures |r| == if |row| <= ndx then ndx + 1 else |row|
    ensures r[ndx] == v
    ensures forall i :: 0 <= i < |r| && i != ndx ==> r[i] == if i < |row| then row[i] else 0
  {
    var row := if |row| <= ndx then row + Zeros(ndx + 1 - |row|) else row;
    row[ndx := v]
  }

  /**
   Writes one snapshot's minima into the series, as the update loop of task 2 in `bgpm.py`
   does: a new origin starts from `n` zeros, then its entry `ndx` is set.
   */
  function RecordSnapshot(acc: map<string, seq<nat>>, mins: map<string, nat>, ndx: nat, n: nat): (r: map<string, seq<nat>>)
  {
    map o | o in acc.Keys + mins.Keys ::
      if o in mins then SetEntry(if o in acc then acc[o] else Zeros(n), ndx, mins[o]) else acc[o]
  }

  /** The origins after recording a snapshot are the old ones and the snapshot's. */
  lemma RecordSnapshotKeys(acc: map<string, seq<nat>>, mins: map<string, nat>, ndx: nat, n: nat)
    ensures forall o :: o in RecordSnapshot(acc, mins, ndx, n) <==> o in acc || o in mins
  {
  }

  /**
   Recording a snapshot into rows of full length `n` keeps that length;
   entry `ndx` of a recorded origin is its minimum; every other entry is the
   old one, or 0 for a new origin.
   */
  lemma RecordSnapshotEntries(acc: map<string, seq<nat>>, mins: map<string, nat>, ndx: nat, n: nat)
    requires ndx < n
    requires forall o :: o in acc ==> |acc[o]| == n
    ensures forall o :: o in RecordSnapshot(acc, mins, ndx, n) ==> |RecordSnapshot(acc, mins, ndx, n)[o]| == n
    ensures forall o, i :: o in RecordSnapshot(acc, mins, ndx, n) && 0 <= i < n ==>
      RecordSnapshot(acc, mins, ndx, n)[o][i] ==
        if i == ndx && o in mins then mins[o] else if o in acc then acc[o][i] else 0
  {
  }

  /** The final loop of task 2 in `bgpm.py`: every row shorter than `n` is extended with zeros. */
  function PadRows(acc: map<string, seq<nat>>, n: nat): (r: map<string, seq<nat>>)
  {
    map o | o in acc :: if |acc[o]| < n then acc[o] + Zeros(n - |acc[o]|) else acc[o]
  }

  /** The per-origin minima of every file, in file order. */
  function PerFile(files: seq<File>): (ms: seq<map<string, nat>>)
    ensures |ms| == |files|
    ensures forall i :: 0 <= i < |files| ==> ms[i] == MinPaths(files[i])
  {
    seq(|files|, i requires 0 <= i < |files| => MinPaths(files[i]))
  }

  /** The entry a series holds for origin `o` at snapshot `i` once the first `k` snapshots are recorded. */
  function Expected(ms: seq<map<string, nat>>, k: nat, o: string, i: nat): (r: nat)
    requires i < |ms|
  {
    if i < k && o in ms[i] then ms[i][o] else 0
  }

  /**
   The series after recording the first `k` snapshots: every row has one
   entry per snapshot; an origin has a row exactly when one of those
   snapshots has a minimum for it; entry i is that minimum, or 0.
   */
  function Series(ms: seq<map<string, nat>>, k: nat): (r: map<string, seq<nat>>)
    requires k <= |ms|
  {
    if k == 0 then map[] else RecordSnapshot(Series(ms, k - 1), ms[k - 1], k - 1, |ms|)
  }

  /** An origin has a row after the first `k` snapshots exactly when one of them has a minimum for it. */
  lemma {:induction false} SeriesOrigins(ms: seq<map<string, nat>>, k: nat)
    requires k <= |ms|
    ensures forall o :: o in Series(ms, k) <==> exists i :: 0 <= i < k && o in ms[i]
  {
    if k > 0 {
      var prev := Series(ms, k - 1);
      SeriesOrigins(ms, k - 1);
      RecordSnapshotKeys(prev, ms[k - 1], k - 1, |ms|);
      SeriesKeys(ms, k, prev, Series(ms, k));
    }
  }

  /** After the first `k` snapshots every row has one entry per snapshot, and entry i is snapshot i's minimum, or 0. */
  lemma {:induction false} SeriesIsExpected(ms: seq<map<string, nat>>, k: nat)
    requires k <= |ms|
    ensures forall o :: o in Series(ms, k) ==> |Series(ms, k)[o]| == |ms|
    ensures forall o, i :: o in Series(ms, k) && 0 <= i < |ms| ==> Series(ms, k)[o][i] == Expected(ms, k, o, i)
  {
    if k > 0 {
      var prev := Series(ms, k - 1);
      SeriesIsExpected(ms, k - 1);
      SeriesOrigins(ms, k - 1);
      RecordSnapshotEntries(prev, ms[k - 1], k - 1, |ms|);
      SeriesEntries(ms, k, prev, Series(ms, k));
    }
  }

  lemma SeriesKeys(ms: seq<map<string, nat>>, k: nat, prev: map<string, seq<nat>>, s: map<string, seq<nat>>)
    requires 0 < k <= |ms|
    requires forall o :: o in prev <==> exists i :: 0 <= i < k - 1 && o in ms[i]
    requires forall o :: o in s <==> o in prev || o in ms[k - 1]
    ensures forall o :: o in s <==> exists i :: 0 <= i < k && o in ms[i]
  {
    forall o ensures o in s <==> exists i :: 0 <= i < k && o in ms[i] {
      if exists i :: 0 <= i < k && o in ms[i] {
        var i :| 0 <= i < k && o in ms[i];
        if i < k - 1 {
          assert o in prev;
        }
      }
    }
  }

  lemma SeriesEntries(ms: seq<map<string, nat>>, k: nat, prev: map<string, seq<nat>>, s: map<string, seq<nat>>)
    requires 0 < k <= |ms|
    requires forall o :: o in prev <==> exists i :: 0 <= i < k - 1 && o in ms[i]
    requires forall o :: o in prev ==> |prev[o]| == |ms|
    requires forall o :: o in s ==> |s[o]| == |ms|
    requires forall o, i :: o in prev && 0 <= i < |ms| ==> prev[o][i] == Expected(ms, k - 1, o, i)
    requires forall o, i :: o in s && 0 <= i < |ms| ==>
      s[o][i] == if i == k - 1 && o in ms[k - 1] then ms[k - 1][o] else if o in prev then prev[o][i] else 0
    ensures forall o, i :: o in s && 0 <= i < |ms| ==> s[o][i] == Expected(ms, k, o, i)
  {
    forall o, i | o in s && 0 <= i < |ms| ensures s[o][i] == Expected(ms, k, o, i) {
      if i != k - 1 && o !in prev {
        assert !(i < k - 1 && o in ms[i]);
      }
    }
  }

  /** The padding loop at the end never changes a row: every row already has one entry per file. */
  lemma PaddingIsNoOp(ms: seq<map<string, nat>>)
    ensures PadRows(Series(ms, |ms|), |ms|) == Series(ms, |ms|)
  {
    SeriesIsExpected(ms, |ms|);
  }

  /** Task 2: the shortest-path series of every origin AS. */
  function ShortestPathBySnapshot(files: seq<File>): (r: map<string, seq<nat>>)
    ensures forall o :: o in r ==> |r[o]| == |files|
    ensures forall o :: o in r <==> exists i :: 0 <= i < |files| && o in MinPaths(files[i])
    ensures forall o, i :: o in r && 0 <= i < |files| ==>
      r[o][i] == if o in MinPaths(files[i]) then MinPaths(files[i])[o] else 0
  {
    var ms := PerFile(files);
    SeriesOrigins(ms, |ms|);
    SeriesIsExpected(ms, |ms|);
    PaddingIsNoOp(ms);
    PadRows(Series(ms, |ms|), |ms|)
  }

  /**
   Entry [o][i] of the result is 0 exactly when file i has no measured path
   ending in o; otherwise it is at least 2, the length of one such path, and
   no longer than any of them.
   */
  lemma ShortestPathEntry(files: seq<File>, o: string, i: nat)
    requires o in ShortestPathBySnapshot(files) && i < |files|
    ensures ShortestPathBySnapshot(files)[o][i] == 0 <==> !Observed(files[i], o)
    ensures ShortestPathBySnapshot(files)[o][i] != 0 ==>
      && ShortestPathBySnapshot(files)[o][i] >= 2
      && Measured(files[i], o, ShortestPathBySnapshot(files)[o][i])
      && forall j :: 0 <= j < |files[i]| && PathSample(files[i][j]).Some? && PathSample(files[i][j]).value.0 == o ==>
           ShortestPathBySnapshot(files)[o][i] <= PathSample(files[i][j]).value.1
  {
    MinPathsKeys(files[i], o);
    MinPathsIsLowerBound(files[i]);
    MinPathsIsAttained(files[i]);
  }
}
