/**
 Tasks 3 and 4: pairing announcements with withdrawals per (peer, prefix)
 and measuring the time between them, over all update files in order.

 Both correlators thread one state through every element of every file;
 the state is never reset at a file boundary. The announce/withdraw
 correlator opens a key on every announcement; the blackholing (RTBH)
 correlator only on an announcement tagged with a community ending in
 ":666", and an untagged announcement closes the key without a duration.

 `bgpm.py` keeps its state in nested dictionaries (peer, then prefix) or in
 one keyed by the pair; both are modelled by maps keyed by the pair.
 */
module Correlator {
  import opened Elements

  /** A correlation key: (peer address, prefix). */
  type Key = (string, string)

  /** The two correlators. */
  datatype Variant = AnnounceWithdraw | Blackholing

  /**
   Correlator state: the time of the open announcement of each key, and the
   durations recorded so far for each key, oldest first.
   */
  datatype State = State(open: map<Key, int>, durations: map<Key, seq<int>>)

  const Initial: State := State(map[], map[])

  /** The key of an element: only elements whose prefix is present and non-empty take part. */
  function KeyOf(e: Elem): (r: Option<Key>)
  {
    if e.prefix.Some? && e.prefix.value != "" then Some((e.peer, e.prefix.value)) else None
  }

  predicate EndsWith(s: string, suffix: string)
  {
    |suffix| <= |s| && s[|s| - |suffix|..] == suffix
  }

  /** Some community of the element marks it for blackholing. */
  predicate HasBlackholeTag(communities: seq<string>)
  {
    exists c :: c in communities && EndsWith(c, ":666")
  }

  /** The durations recorded for `k`, empty when none. */
  function RecordedFor(durations: map<Key, seq<int>>, k: Key): (r: seq<int>)
  {
    if k in durations then durations[k] else []
  }

  /**
   A withdrawal of `k` at time `t`: if an announcement is open, its duration
   is recorded when positive, and the key is closed either way.
   */
  function Close(st: State, k: Key, t: int): (r: State)
  {
    if k in st.open then
      var d := t - st.open[k];
      var durations := if d > 0 then st.durations[k := RecordedFor(st.durations, k) + [d]] else st.durations;
      State(st.open - {k}, durations)
    else st
  }

  /**
   One element through the announce/withdraw correlator. Every keyed element
   first gets an (empty) result entry, as `bgpm.py` creates one before it
   looks at the element type.
   */
  function StepAnnounceWithdraw(st: State, e: Elem): (r: State)
  {
    match KeyOf(e)
    case None => st
    case Some(k) =>
      var st := st.(durations := if k in st.durations then st.durations else st.durations[k := []]);
      match e.kind
      case Announcement => st.(open := st.open[k := e.time])
      case Withdrawal => Close(st, k, e.time)
      case _ => st
  }

  /** One element through the blackholing correlator. */
  function StepBlackholing(st: State, e: Elem): (r: State)
  {
    match KeyOf(e)
    case None => st
    case Some(k) =>
      match e.kind
      case Withdrawal => Close(st, k, e.time)
      case Announcement =>
        if HasBlackholeTag(e.communities) then st.(open := st.open[k := e.time])
        else st.(open := st.open - {k})
      case _ => st
  }

  function Step(v: Variant, st: State, e: Elem): (r: State)
  {
    match v
    case AnnounceWithdraw => StepAnnounceWithdraw(st, e)
    case Blackholing => StepBlackholing(st, e)
  }

  /** The elements of one stream, in order. */
  function Run(v: Variant, st: State, elems: seq<Elem>): (r: State)
    decreases |elems|
  {
    if elems == [] then st else Run(v, Step(v, st, elems[0]), elems[1..])
  }

  /** The files in order, the state carried from each file into the next. */
  function RunFiles(v: Variant, st: State, files: seq<File>): (r: State)
    decreases |files|
  {
    if files == [] then st else RunFiles(v, Run(v, st, files[0]), files[1..])
  }

  /** All elements of all files, in order. */
  function Concat(files: seq<File>): (r: seq<Elem>)
  {
    if files == [] then [] else files[0] + Concat(files[1..])
  }

  /** Every recorded duration is strictly positive. */
  predicate AllPositive(durations: map<Key, seq<int>>)
  {
    forall k, j :: k in durations && 0 <= j < |durations[k]| ==> durations[k][j] > 0
  }

  /** The result shape: peer, then prefix, then durations. */
  type Durations = map<string, map<string, seq<int>>>

  /** No peer maps to an empty dictionary and no prefix to an empty list. */
  predicate NoEmptyEntries(r: Durations)
  {
    forall peer :: peer in r ==> r[peer] != map[] && forall pfx :: pfx in r[peer] ==> r[peer][pfx] != []
  }

  /** The peers with at least one duration. */
  function PeersWithDurations(durations: map<Key, seq<int>>): (r: set<string>)
  {
    set k | k in durations && durations[k] != [] :: k.0
  }

  /** The prefixes of `peer` with at least one duration. */
  function PrefixesWithDurations(durations: map<Key, seq<int>>, peer: string): (r: set<string>)
  {
    set k | k in durations && k.0 == peer && durations[k] != [] :: k.1
  }

  /** The durations of one peer, by prefix, keeping only prefixes with at least one duration. */
  function PeerDurations(durations: map<Key, seq<int>>, peer: string): (r: map<string, seq<int>>)
    ensures forall pfx :: pfx in r <==> (peer, pfx) in durations && durations[(peer, pfx)] != []
    ensures forall pfx :: pfx in r ==> r[pfx] == durations[(peer, pfx)]
  {
    map pfx | pfx in PrefixesWithDurations(durations, peer) :: durations[(peer, pfx)]
  }

  /**
   The final clean-up: keys with no duration are dropped, then peers left
   with no prefix. What remains is exactly the keys with durations, each
   with its full list.
   */
  function Prune(durations: map<Key, seq<int>>): (r: Durations)
    ensures NoEmptyEntries(r)
    ensures forall peer, pfx :: peer in r && pfx in r[peer] ==>
      (peer, pfx) in durations && r[peer][pfx] == durations[(peer, pfx)]
    ensures forall k :: k in durations && durations[k] != [] ==> k.0 in r && k.1 in r[k.0]
  {
    var r := map peer | peer in PeersWithDurations(durations) :: PeerDurations(durations, peer);
    assert NoEmptyEntries(r) by {
      forall peer | peer in r ensures r[peer] != map[] {
        var k :| k in durations && durations[k] != [] && k.0 == peer;
        assert k.1 in PrefixesWithDurations(durations, peer);
        assert k.1 in r[peer];
      }
    }
    forall k | k in durations && durations[k] != [] ensures k.0 in r && k.1 in r[k.0] {
      assert k.0 in PeersWithDurations(durations);
      assert k.1 in PrefixesWithDurations(durations, k.0);
    }
    r
  }

  /**
   One correlator over all files, its state carried across file boundaries,
   with the final clean-up: only positive durations, no empty entries.
   */
  function Correlate(v: Variant, files: seq<File>): (r: Durations)
    ensures NoEmptyEntries(r)
    ensures forall peer, pfx, j :: peer in r && pfx in r[peer] && 0 <= j < |r[peer][pfx]| ==> r[peer][pfx][j] > 0
  {
    var st := RunFiles(v, Initial, files);
    RunFilesKeepsPositive(v, Initial, files);
    Prune(st.durations)
  }

  /** Task 3: announce/withdraw durations, by peer and prefix. */
  function AwEventDurations(files: seq<File>): (r: Durations)
  {
    Correlate(AnnounceWithdraw, files)
  }

  /** Task 4: blackholing durations, by peer and prefix. */
  function RtbhEventDurations(files: seq<File>): (r: Durations)
  {
    Correlate(Blackholing, files)
  }

  lemma StepKeepsPositive(v: Variant, st: State, e: Elem)
    requires AllPositive(st.durations)
    ensures AllPositive(Step(v, st, e).durations)
  {
  }

  lemma {:induction false} RunKeepsPositive(v: Variant, st: State, elems: seq<Elem>)
    requires AllPositive(st.durations)
    ensures AllPositive(Run(v, st, elems).durations)
    decreases |elems|
  {
    if elems != [] {
      StepKeepsPositive(v, st, elems[0]);
      RunKeepsPositive(v, Step(v, st, elems[0]), elems[1..]);
    }
  }

  lemma {:induction false} RunFilesKeepsPositive(v: Variant, st: State, files: seq<File>)
    requires AllPositive(st.durations)
    ensures AllPositive(RunFiles(v, st, files).durations)
    decreases |files|
  {
    if files != [] {
      RunKeepsPositive(v, st, files[0]);
      RunFilesKeepsPositive(v, Run(v, st, files[0]), files[1..]);
    }
  }

  /** Running two streams one after the other is running their concatenation. */
  lemma {:induction false} RunAppend(v: Variant, st: State, a: seq<Elem>, b: seq<Elem>)
    ensures Run(v, st, a + b) == Run(v, Run(v, st, a), b)
    decreases |a|
  {
    if a == [] {
      assert a + b == b;
    } else {
      assert (a + b)[0] == a[0];
      assert (a + b)[1..] == a[1..] + b;
      RunAppend(v, Step(v, st, a[0]), a[1..], b);
    }
  }

  /**
   The state is not reset between files: processing the files one by one is
   processing all their elements as one stream, so an announcement in one
   file pairs with a withdrawal in a later one.
   */
  lemma {:induction false} RunFilesIsOneStream(v: Variant, st: State, files: seq<File>)
    ensures RunFiles(v, st, files) == Run(v, st, Concat(files))
    decreases |files|
  {
    if files != [] {
      RunFilesIsOneStream(v, Run(v, st, files[0]), files[1..]);
      RunAppend(v, st, files[0], Concat(files[1..]));
    }
  }

  /** The state of one key: its open announcement, if any, and its durations so far. */
  datatype KeyState = KeyState(open: Option<int>, durations: seq<int>)

  /**
   The correlator for a single key, as a reference: an announcement that
   qualifies opens (or re-opens) the key at its time; a blackholing
   correlator's untagged announcement closes it; a withdrawal of an open
   key closes it and appends the duration when positive; a withdrawal of a
   closed key does nothing.
   */
  function KeyStep(v: Variant, ks: KeyState, e: Elem): (r: KeyState)
  {
    match e.kind
    case Announcement =>
      if v == AnnounceWithdraw || HasBlackholeTag(e.communities) then ks.(open := Some(e.time))
      else ks.(open := None)
    case Withdrawal =>
      (match ks.open
       case None => ks
       case Some(t0) => KeyState(None, if e.time - t0 > 0 then ks.durations + [e.time - t0] else ks.durations))
    case _ => ks
  }

  /** The single-key correlator over the elements of a stream that carry key `k`. */
  function KeyRun(v: Variant, k: Key, ks: KeyState, elems: seq<Elem>): (r: KeyState)
    decreases |elems|
  {
    if elems == [] then ks
    else KeyRun(v, k, if KeyOf(elems[0]) == Some(k) then KeyStep(v, ks, elems[0]) else ks, elems[1..])
  }

  /** What the full state says about key `k`. */
  function Project(st: State, k: Key): (r: KeyState)
  {
    KeyState(if k in st.open then Some(st.open[k]) else None, RecordedFor(st.durations, k))
  }

  /** One step moves the element's key as the single-key correlator does and leaves every other key alone. */
  lemma ProjectStep(v: Variant, st: State, e: Elem, k: Key)
    ensures Project(Step(v, st, e), k) == if KeyOf(e) == Some(k) then KeyStep(v, Project(st, k), e) else Project(st, k)
  {
    match KeyOf(e)
    case None =>
    case Some(k') =>
      if v == AnnounceWithdraw {
        var st1 := st.(durations := if k' in st.durations then st.durations else st.durations[k' := []]);
        assert Project(st1, k) == Project(st, k);
        assert Step(v, st, e) == match e.kind
          case Announcement => st1.(open := st1.open[k' := e.time])
          case Withdrawal => Close(st1, k', e.time)
          case _ => st1;
      }
  }

  /**
   Keys are independent: for every key, the full correlator over a stream
   agrees with the single-key correlator over that key's elements.
   */
  lemma {:induction false} ProjectRun(v: Variant, st: State, elems: seq<Elem>, k: Key)
    ensures Project(Run(v, st, elems), k) == KeyRun(v, k, Project(st, k), elems)
    decreases |elems|
  {
    if elems != [] {
      ProjectStep(v, st, elems[0], k);
      ProjectRun(v, Step(v, st, elems[0]), elems[1..], k);
    }
  }

  /**
   Durations are only ever appended, in withdrawal order: what a key has
   recorded before a stream is a prefix of what it has after it.
   */
  lemma {:induction false} KeyRunAppendsOnly(v: Variant, k: Key, ks: KeyState, elems: seq<Elem>)
    ensures ks.durations <= KeyRun(v, k, ks, elems).durations
    decreases |elems|
  {
    if elems != [] {
      var next := if KeyOf(elems[0]) == Some(k) then KeyStep(v, ks, elems[0]) else ks;
      KeyRunAppendsOnly(v, k, next, elems[1..]);
    }
  }

  lemma RunAppendsOnly(v: Variant, st: State, elems: seq<Elem>, k: Key)
    ensures RecordedFor(st.durations, k) <= RecordedFor(Run(v, st, elems).durations, k)
  {
    ProjectRun(v, st, elems, k);
    KeyRunAppendsOnly(v, k, Project(st, k), elems);
  }

  /**
   The result, key by key: (peer, prefix) is listed exactly when the
   single-key correlator, run from a closed key over all elements of all
   files, records a duration, and then it lists exactly those durations.
   */
  lemma CorrelateIsPerKey(v: Variant, files: seq<File>, peer: string, pfx: string)
    ensures var ks := KeyRun(v, (peer, pfx), KeyState(None, []), Concat(files));
      && (peer in Correlate(v, files) && pfx in Correlate(v, files)[peer] <==> ks.durations != [])
      && (peer in Correlate(v, files) && pfx in Correlate(v, files)[peer] ==> Correlate(v, files)[peer][pfx] == ks.durations)
  {
    var k := (peer, pfx);
    RunFilesIsOneStream(v, Initial, files);
    ProjectRun(v, Initial, Concat(files), k);
    assert Project(Initial, k) == KeyState(None, []);
  }

  const Peer: string := "127.0.0.1"
  const Pfx: string := "12.13.14.0/24"
  const AnnounceAt10: Elem := Elem(10, Announcement, Some(Pfx), Some("1 2 3"), Peer, [])
  const WithdrawAt14: Elem := Elem(14, Withdrawal, Some(Pfx), None, Peer, [])

  /** Announcement at 10, withdrawal at 14 from the same peer for the same prefix: one duration of 4. */
  lemma AnnounceThenWithdraw()
    ensures AwEventDurations([[AnnounceAt10, WithdrawAt14]]) == map[Peer := map[Pfx := [4]]]
  {
    var e1, e2 := AnnounceAt10, WithdrawAt14;
    var k := (Peer, Pfx);
    assert KeyOf(e1) == Some(k) && KeyOf(e2) == Some(k);
    var st1 := Step(AnnounceWithdraw, Initial, e1);
    assert st1 == State(map[k := 10], map[k := []]);
    var st2 := Step(AnnounceWithdraw, st1, e2);
    assert st2 == Close(st1, k, 14);
    assert st1.open - {k} == map[];
    assert st1.open[k] == 10 && RecordedFor(st1.durations, k) == [];
    assert st1.durations == map[k := []];
    assert [] + [4] == [4];
    assert map[k := []][k := [4]] == map[k := [4]];
    assert st2 == State(map[], map[k := [4]]);
    assert [e1, e2][1..] == [e2];
    assert Run(AnnounceWithdraw, st1, [e2]) == Run(AnnounceWithdraw, st2, []);
    assert Run(AnnounceWithdraw, Initial, [e1, e2]) == st2;
    var st := RunFiles(AnnounceWithdraw, Initial, [[e1, e2]]);
    assert [[e1, e2]][1..] == [] && [[e1, e2]][0] == [e1, e2];
    assert st == RunFiles(AnnounceWithdraw, st2, []);
    assert st == st2;
    assert PeersWithDurations(st.durations) == {Peer};
    assert PrefixesWithDurations(st.durations, Peer) == {Pfx};
    assert PeerDurations(st.durations, Peer) == map[Pfx := [4]];
    assert Prune(st.durations) == map[Peer := map[Pfx := [4]]];
  }

  /** The same pair split over two files still yields the duration of 4: the open announcement survives the file boundary. */
  lemma AnnounceThenWithdrawAcrossFiles()
    ensures AwEventDurations([[AnnounceAt10], [WithdrawAt14]]) == map[Peer := map[Pfx := [4]]]
  {
    var v := AnnounceWithdraw;
    RunFilesIsOneStream(v, Initial, [[AnnounceAt10], [WithdrawAt14]]);
    RunFilesIsOneStream(v, Initial, [[AnnounceAt10, WithdrawAt14]]);
    assert Concat([[AnnounceAt10], [WithdrawAt14]]) == [AnnounceAt10, WithdrawAt14] by {
      assert [[AnnounceAt10], [WithdrawAt14]][1..] == [[WithdrawAt14]];
      assert Concat([[WithdrawAt14]]) == [WithdrawAt14] + Concat([]);
    }
    assert Concat([[AnnounceAt10, WithdrawAt14]]) == [AnnounceAt10, WithdrawAt14] + Concat([]);
    AnnounceThenWithdraw();
  }

  /**
   A tagged announcement at 0, an untagged one at 5 and a withdrawal at 8:
   the untagged announcement closed the key, so no blackholing duration.
   */
  lemma UntaggedAnnouncementEndsBlackhole()
    ensures RtbhEventDurations([[
      Elem(0, Announcement, Some(Pfx), Some("1 2"), Peer, ["65000:666"]),
      Elem(5, Announcement, Some(Pfx), Some("1 2"), Peer, []),
      Elem(8, Withdrawal, Some(Pfx), None, Peer, [])
    ]]) == map[]
  {
    var e1 := Elem(0, Announcement, Some(Pfx), Some("1 2"), Peer, ["65000:666"]);
    var e2 := Elem(5, Announcement, Some(Pfx), Some("1 2"), Peer, []);
    var e3 := Elem(8, Withdrawal, Some(Pfx), None, Peer, []);
    var v := Blackholing;
    var k := (Peer, Pfx);
    assert EndsWith("65000:666", ":666");
    assert HasBlackholeTag(e1.communities);
    var st1 := Step(v, Initial, e1);
    assert st1 == State(map[k := 0], map[]);
    var st2 := Step(v, st1, e2);
    assert st1.open - {k} == map[];
    assert st2 == State(map[], map[]);
    var st3 := Step(v, st2, e3);
    assert st3 == st2;
    assert [e1, e2, e3][1..] == [e2, e3] && [e2, e3][1..] == [e3];
    assert Run(v, Initial, [e1, e2, e3]) == Run(v, st1, [e2, e3]) == Run(v, st2, [e3]) == Run(v, st3, []);
    assert [[e1, e2, e3]][1..] == [];
    assert RunFiles(v, Initial, [[e1, e2, e3]]) == RunFiles(v, st3, []);
    assert PeersWithDurations(st3.durations) == {};
  }
}
