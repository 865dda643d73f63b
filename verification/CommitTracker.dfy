/**
 * How a leader decides what is committed (src/raft/RaftCommitTracker.cc): the leader commit rule
 * of section 5.3 and Figure 2 of the Raft paper, without the condition on terms of section 5.4.2,
 * which this class does not check. First the order statistic and the protocol between the threads
 * that report progress, as a state machine on values; then the class.
 */
module CommitTracker {
  import opened Bytes

  type Server = Bytes

  // ---------------------------------------------------------------- an order statistic

  predicate Ascending(s: seq<int>)
  {
    forall i, j :: 0 <= i < j < |s| ==> s[i] <= s[j]
  }

  function Insert(x: int, s: seq<int>): (r: seq<int>)
    requires Ascending(s)
    ensures Ascending(r) && |r| == |s| + 1 && r[0] == if s == [] || x <= s[0] then x else s[0]
  {
    if s == [] || x <= s[0] then [x] + s else [s[0]] + Insert(x, s[1..])
  }

  /** std::sort. */
  function Sort(s: seq<int>): (r: seq<int>)
    ensures Ascending(r) && |r| == |s|
  {
    if s == [] then [] else Insert(s[0], Sort(s[1..]))
  }

  /** How many elements are at least v. */
  function AtLeast(s: seq<int>, v: int): nat
  {
    if s == [] then 0 else (if s[0] >= v then 1 else 0) + AtLeast(s[1..], v)
  }

  lemma {:induction false} AtLeastInsert(x: int, s: seq<int>, v: int)
    requires Ascending(s)
    ensures AtLeast(Insert(x, s), v) == (if x >= v then 1 else 0) + AtLeast(s, v)
  {
    if s == [] || x <= s[0] {
      assert ([x] + s)[1..] == s;
    } else {
      AtLeastInsert(x, s[1..], v);
      assert ([s[0]] + Insert(x, s[1..]))[1..] == Insert(x, s[1..]);
    }
  }

  lemma {:induction false} AtLeastSort(s: seq<int>, v: int)
    ensures AtLeast(Sort(s), v) == AtLeast(s, v)
  {
    if s != [] {
      AtLeastSort(s[1..], v);
      AtLeastInsert(s[0], Sort(s[1..]), v);
    }
  }

  lemma {:induction false} AtLeastAscending(s: seq<int>, k: nat, v: int)
    requires Ascending(s) && k < |s|
    ensures v <= s[k] ==> AtLeast(s, v) >= |s| - k
    ensures v > s[k] ==> AtLeast(s, v) < |s| - k
  {
    if k > 0 {
      AtLeastAscending(s[1..], k - 1, v);
    } else if v <= s[0] {
      AllAtLeast(s, v);
    } else {
      AtMostAll(s[1..], v);
    }
  }

  lemma {:induction false} AllAtLeast(s: seq<int>, v: int)
    requires forall i :: 0 <= i < |s| ==> s[i] >= v
    ensures AtLeast(s, v) == |s|
  {
    if s != [] {
      AllAtLeast(s[1..], v);
    }
  }

  lemma {:induction false} AtMostAll(s: seq<int>, v: int)
    ensures AtLeast(s, v) <= |s|
  {
    if s != [] {
      AtMostAll(s[1..], v);
    }
  }

  // ---------------------------------------------------------------- the quorum value

  /** calculateQuorumSize (src/raft/RaftCommon.hh:244): the leader is a member too. */
  function QuorumSize(targets: nat): (q: nat)
    ensures 2 * q > targets + 1 && 2 * (q - 1) <= targets + 1
  {
    (targets + 1) / 2 + 1
  }

  /** The targets that have the entries up to v. */
  ghost function Reached(matches: map<Server, int>, targets: set<Server>, v: int): set<Server>
    requires targets <= matches.Keys
  {
    set s | s in targets && matches[s] >= v
  }

  /** More than half of the members, the leader among them, have the entries up to v. */
  ghost predicate MajorityHas(matches: map<Server, int>, targets: set<Server>, v: int)
    requires targets <= matches.Keys
  {
    2 * (|Reached(matches, targets, v)| + 1) > |targets| + 1
  }

  /** v is the largest index that a majority has. */
  ghost predicate IsQuorumValue(matches: map<Server, int>, targets: set<Server>, v: int)
    requires targets <= matches.Keys
  {
    MajorityHas(matches, targets, v) && forall w :: w > v ==> !MajorityHas(matches, targets, w)
  }

  /** The list holds the match index of every target, in some order. */
  ghost predicate Lists(indexes: seq<int>, matches: map<Server, int>, targets: set<Server>)
    requires targets <= matches.Keys
  {
    |indexes| == |targets| && forall v :: AtLeast(indexes, v) == |Reached(matches, targets, v)|
  }

  /** The element that recalculateCommitIndex picks is the quorum value. */
  lemma PickedIsQuorumValue(indexes: seq<int>, matches: map<Server, int>, targets: set<Server>)
    requires targets <= matches.Keys && targets != {} && Lists(indexes, matches, targets)
    ensures |Sort(indexes)| == |indexes| && 0 <= |indexes| + 1 - QuorumSize(|targets|) < |indexes|
    ensures IsQuorumValue(matches, targets, Sort(indexes)[|indexes| + 1 - QuorumSize(|targets|)])
  {
    var s := Sort(indexes);
    var k := |indexes| + 1 - QuorumSize(|targets|);
    forall v ensures |Reached(matches, targets, v)| >= |s| - k <==> v <= s[k] {
      AtLeastSort(indexes, v);
      AtLeastAscending(s, k, v);
    }
  }

  lemma QuorumValueUnique(matches: map<Server, int>, targets: set<Server>, v: int, w: int)
    requires targets <= matches.Keys && IsQuorumValue(matches, targets, v) && IsQuorumValue(matches, targets, w)
    ensures v == w
  {
  }

  lemma NothingListed(matches: map<Server, int>)
    ensures Lists([], matches, {})
  {
    assert forall v :: Reached(matches, {}, v) == {};
  }

  /** One more target. */
  lemma ListsMore(indexes: seq<int>, matches: map<Server, int>, targets: set<Server>, s: Server)
    requires targets + {s} <= matches.Keys && s !in targets && Lists(indexes, matches, targets)
    ensures Lists(indexes + [matches[s]], matches, targets + {s})
  {
    forall v ensures AtLeast(indexes + [matches[s]], v) == |Reached(matches, targets + {s}, v)| {
      AtLeastAppend(indexes, matches[s], v);
      var before, after := Reached(matches, targets, v), Reached(matches, targets + {s}, v);
      assert after == if matches[s] >= v then before + {s} else before;
    }
  }

  lemma {:induction false} AtLeastAppend(s: seq<int>, x: int, v: int)
    ensures AtLeast(s + [x], v) == AtLeast(s, v) + if x >= v then 1 else 0
  {
    if s == [] {
      assert s + [x] == [x];
    } else {
      assert (s + [x])[1..] == s[1..] + [x];
      AtLeastAppend(s[1..], x, v);
    }
  }

  lemma {:induction false} IndexesExist(matches: map<Server, int>, targets: set<Server>) returns (indexes: seq<int>)
    requires targets <= matches.Keys
    ensures Lists(indexes, matches, targets)
    decreases |targets|
  {
    indexes := [];
    if targets == {} {
      NothingListed(matches);
    } else {
      var s :| s in targets;
      var rest := IndexesExist(matches, targets - {s});
      ListsMore(rest, matches, targets - {s}, s);
      assert targets - {s} + {s} == targets;
      indexes := rest + [matches[s]];
    }
  }

  lemma QuorumValueExists(matches: map<Server, int>, targets: set<Server>) returns (v: int)
    requires targets <= matches.Keys && targets != {}
    ensures IsQuorumValue(matches, targets, v)
  {
    var indexes := IndexesExist(matches, targets);
    PickedIsQuorumValue(indexes, matches, targets);
    v := Sort(indexes)[|indexes| + 1 - QuorumSize(|targets|)];
  }

  /**
   * If nobody has more in `now` than in `seen`, except by at most what is still to be reported, neither has
   * the majority.
   */
  lemma QuorumValueBounded(
    seen: map<Server, int>, now: map<Server, int>, targets: set<Server>, v: int, w: int, outstanding: multiset<int>)
    requires targets <= seen.Keys && targets <= now.Keys && IsQuorumValue(seen, targets, v)
    requires IsQuorumValue(now, targets, w)
    requires forall s :: s in targets ==> now[s] <= seen[s] || now[s] in outstanding
    ensures w <= v || exists x :: x in outstanding && x >= w
  {
    if !exists x :: x in outstanding && x >= w {
      MajorityCarriesOver(seen, now, targets, w);
    }
  }

  lemma MajorityCarriesOver(seen: map<Server, int>, now: map<Server, int>, targets: set<Server>, w: int)
    requires targets <= seen.Keys && targets <= now.Keys && forall s :: s in targets && now[s] >= w ==> seen[s] >= w
    ensures MajorityHas(now, targets, w) ==> MajorityHas(seen, targets, w)
  {
    assert Reached(now, targets, w) <= Reached(seen, targets, w);
    Subset(Reached(now, targets, w), Reached(seen, targets, w));
  }

  lemma {:induction false} Subset(a: set<Server>, b: set<Server>)
    requires a <= b
    ensures |a| <= |b|
  {
    assert b == a + (b - a);
  }

  // ---------------------------------------------------------------- the protocol

  /** Whoever holds the tracker's lock is idle, or in the middle of reading the match indexes. */
  datatype Phase = Idle | Reading(seen: map<Server, int>)

  /**
   * A match index is first written, without the lock, and reported after that, under the lock:
   * `outstanding` are the values written and not yet reported.
   */
  datatype Tracker = Tracker(
    matches: map<Server, int>,
    targets: set<Server>,
    outstanding: multiset<int>,
    phase: Phase,
    commitIndex: int,
    lagging: bool,
    journalCommit: int,
    logSize: int)

  datatype Event =
    | Register(s: Server)                 // getHandler
    | UpdateTargets(servers: set<Server>)
    | SetMatch(s: Server, v: int)         // the first half of RaftMatchIndexTracker::update
    | Report(v: int)                      // updated, up to the early return or the start of the loop
    | ReadOne(s: Server)                  // one round of the loop in recalculateCommitIndex
    | Finish(v: int)                      // the value picked, and updateCommitIndex
    | AutoCommit                          // the thread that runs when there are no targets
    | Append(n: nat)                      // the leader's journal grows

  /** updateCommitIndex (src/raft/RaftCommitTracker.cc:115-129). */
  function Committed(t: Tracker, v: int): Tracker
  {
    if v < t.journalCommit then t.(lagging := true) else t.(lagging := false, commitIndex := v, journalCommit := v)
  }

  /** Servers that are known keep their match index. */
  function Registered(matches: map<Server, int>, servers: set<Server>): map<Server, int>
  {
    map s | s in matches.Keys + servers :: if s in matches then matches[s] else 0
  }

  ghost predicate Enabled(t: Tracker, e: Event)
  {
    match e
    case Register(_) => t.phase.Idle?
    case UpdateTargets(_) => t.phase.Idle?
    case SetMatch(s, v) => s in t.matches && v < t.logSize
    case Report(v) => t.phase.Idle? && v in t.outstanding
    case ReadOne(s) => t.phase.Reading? && s in t.targets && s !in t.phase.seen && s in t.matches
    case Finish(v) => t.phase.Reading? && t.phase.seen.Keys == t.targets && IsQuorumValue(t.phase.seen, t.targets, v)
    case AutoCommit => t.targets == {}
    case Append(_) => true
  }

  ghost function Step(t: Tracker, e: Event): Tracker
    requires Enabled(t, e)
  {
    match e
    case Register(s) => t.(matches := Registered(t.matches, {s}))
    case UpdateTargets(servers) => t.(matches := Registered(t.matches, servers), targets := servers)
    case SetMatch(s, v) => t.(matches := t.matches[s := v], outstanding := t.outstanding + multiset{v})
    case Report(v) =>
      var u := t.(outstanding := t.outstanding - multiset{v});
      if v <= t.commitIndex || t.targets == {} then u else u.(phase := Reading(map[]))
    case ReadOne(s) => t.(phase := Reading(t.phase.seen[s := t.matches[s]]))
    case Finish(v) => Committed(t.(phase := Idle), v)
    case AutoCommit => t.(journalCommit := if t.logSize - 1 > t.journalCommit then t.logSize - 1 else t.journalCommit)
    case Append(n) => t.(logSize := t.logSize + n)
  }

  /** What was read is what is there now, unless a newer value is still to be reported. */
  ghost predicate SeenFits(t: Tracker)
  {
    t.phase.Reading? ==>
      && t.phase.seen.Keys <= t.targets
      && forall s :: s in t.phase.seen ==>
        s in t.matches && (t.matches[s] <= t.phase.seen[s] || t.matches[s] in t.outstanding)
          && t.phase.seen[s] < t.logSize
  }

  ghost predicate Inv(t: Tracker)
  {
    && t.targets <= t.matches.Keys && 0 <= t.commitIndex <= t.journalCommit < t.logSize
    && (forall s :: s in t.matches ==> t.matches[s] < t.logSize)
    && (t.phase.Reading? ==> t.targets != {})
    && SeenFits(t)
  }

  /** The journal has all that a majority has, or a report that will see to it is on its way. */
  ghost predicate Covered(t: Tracker)
    requires t.targets <= t.matches.Keys
  {
    forall q :: IsQuorumValue(t.matches, t.targets, q) && t.targets != {} && t.phase.Idle? ==>
      q <= t.journalCommit || exists x :: x in t.outstanding && x >= q
  }

  /** A value that is committed exists in the journal, so that setCommitIndex does not throw. */
  lemma QuorumValueLogged(matches: map<Server, int>, targets: set<Server>, v: int, logSize: int)
    requires targets <= matches.Keys && targets != {} && IsQuorumValue(matches, targets, v)
    requires forall s :: s in targets ==> matches[s] < logSize
    ensures v < logSize
  {
    if v >= logSize {
      NobodyHas(matches, targets, v);
    }
  }

  lemma NobodyHas(matches: map<Server, int>, targets: set<Server>, v: int)
    requires targets <= matches.Keys && targets != {} && forall s :: s in targets ==> matches[s] < v
    ensures !MajorityHas(matches, targets, v)
  {
    assert Reached(matches, targets, v) == {};
    var s :| s in targets;
    Subset({s}, targets);
  }

  lemma StepKeepsInv(t: Tracker, e: Event)
    requires Inv(t) && Enabled(t, e)
    ensures Inv(Step(t, e))
  {
    SeenStaysFit(t, e);
    if e.Finish? {
      QuorumValueLogged(t.phase.seen, t.targets, e.v, t.logSize);
    }
  }

  lemma SeenStaysFit(t: Tracker, e: Event)
    requires Inv(t) && Enabled(t, e)
    ensures SeenFits(Step(t, e))
  {
    if t.phase.Reading? && e.SetMatch? {
      var u := Step(t, e);
      forall s | s in t.phase.seen ensures u.matches[s] <= t.phase.seen[s] || u.matches[s] in u.outstanding {
        assert s != e.s ==> u.matches[s] == t.matches[s];
      }
    }
  }

  /** The journal's commit index never goes back, whatever the match indexes do. */
  lemma StepNeverUncommits(t: Tracker, e: Event)
    requires Inv(t) && Enabled(t, e)
    ensures Step(t, e).journalCommit >= t.journalCommit
  {
  }

  /** A server that is not a target has no influence. */
  lemma OnlyTargetsCount(t: Tracker, s: Server, v: int, q: int)
    requires Inv(t) && s in t.matches && s !in t.targets
    ensures IsQuorumValue(t.matches[s := v], t.targets, q) <==> IsQuorumValue(t.matches, t.targets, q)
  {
    var m := t.matches[s := v];
    assert t.targets <= m.Keys;
    forall w ensures MajorityHas(m, t.targets, w) <==> MajorityHas(t.matches, t.targets, w) {
      assert Reached(m, t.targets, w) == Reached(t.matches, t.targets, w);
    }
  }

  // ---------------------------------------------------------------- nothing is forgotten

  /** Whoever raises what a majority has, has it to report: the value written is at least the new quorum value. */
  lemma SetMatchCovers(t: Tracker, s: Server, v: int)
    requires Inv(t) && Covered(t) && s in t.matches && v < t.logSize
    ensures Covered(Step(t, SetMatch(s, v)))
  {
    var u := Step(t, SetMatch(s, v));
    if t.targets != {} && t.phase.Idle? {
      var old_q := QuorumValueExists(t.matches, t.targets);
      forall q | IsQuorumValue(u.matches, u.targets, q) ensures q <= u.journalCommit
        || exists x :: x in u.outstanding && x >= q {
        QuorumValueBounded(t.matches, u.matches, t.targets, old_q, q, multiset{v});
        if old_q >= q && old_q > t.journalCommit {
          var x :| x in t.outstanding && x >= old_q;
          assert x in u.outstanding;
        } else if old_q < q {
          assert v in u.outstanding;
        }
      }
    }
  }

  /** The early return is safe: what is not above the commit index cannot raise it. */
  lemma ReportCovers(t: Tracker, v: int)
    requires Inv(t) && Covered(t) && t.phase.Idle? && v in t.outstanding
    ensures Covered(Step(t, Report(v)))
  {
    var u := Step(t, Report(v));
    if u.phase.Idle? && t.targets != {} {
      forall q | IsQuorumValue(u.matches, u.targets, q) ensures q <= u.journalCommit
        || exists x :: x in u.outstanding && x >= q {
        if q > t.journalCommit {
          var x :| x in t.outstanding && x >= q;
          assert x in u.outstanding;
        }
      }
    }
  }

  /** Even if match indexes are written while they are being read, and whatever was missed before. */
  lemma FinishCovers(t: Tracker, v: int)
    requires Inv(t) && Enabled(t, Finish(v))
    ensures Covered(Step(t, Finish(v)))
  {
    var u := Step(t, Finish(v));
    forall q | IsQuorumValue(u.matches, u.targets, q) ensures q <= u.journalCommit
      || exists x :: x in u.outstanding && x >= q {
      QuorumValueBounded(t.phase.seen, t.matches, t.targets, v, q, t.outstanding);
    }
  }

  lemma RegisterCovers(t: Tracker, s: Server)
    requires Inv(t) && Covered(t) && t.phase.Idle?
    ensures Covered(Step(t, Register(s)))
  {
    var u := Step(t, Register(s));
    forall q | IsQuorumValue(u.matches, u.targets, q) ensures IsQuorumValue(t.matches, t.targets, q) {
      forall w ensures MajorityHas(u.matches, t.targets, w) <==> MajorityHas(t.matches, t.targets, w) {
        assert Reached(u.matches, t.targets, w) == Reached(t.matches, t.targets, w);
      }
    }
  }

  lemma StepCovers(t: Tracker, e: Event)
    requires Inv(t) && Covered(t) && Enabled(t, e) && !e.UpdateTargets?
    ensures Inv(Step(t, e)) && Covered(Step(t, e))
  {
    StepKeepsInv(t, e);
    match e {
      case Register(s) => RegisterCovers(t, s);
      case SetMatch(s, v) => SetMatchCovers(t, s, v);
      case Report(v) => ReportCovers(t, v);
      case Finish(v) => FinishCovers(t, v);
      case _ =>
    }
  }

  ghost predicate StepAt(states: seq<Tracker>, events: seq<Event>, k: nat)
    requires k < |events| && |states| == |events| + 1
  {
    Enabled(states[k], events[k]) && states[k + 1] == Step(states[k], events[k])
  }

  ghost predicate IsRun(states: seq<Tracker>, events: seq<Event>)
  {
    |states| == |events| + 1 && Inv(states[0])
      && forall k {:trigger StepAt(states, events, k)} :: 0 <= k < |events| ==> StepAt(states, events, k)
  }

  lemma {:induction false} RunKeeps(states: seq<Tracker>, events: seq<Event>, i: nat, k: nat)
    requires IsRun(states, events) && i <= k <= |events|
    ensures Inv(states[k]) && states[i].journalCommit <= states[k].journalCommit
    decreases k
  {
    if k > 0 {
      RunKeeps(states, events, if i < k then i else i - 1, k - 1);
      assert StepAt(states, events, k - 1);
      StepKeepsInv(states[k - 1], events[k - 1]);
      StepNeverUncommits(states[k - 1], events[k - 1]);
    }
  }

  /** Between membership changes, once all reports are in, the journal has committed what a majority has. */
  lemma {:induction false} NothingForgotten(states: seq<Tracker>, events: seq<Event>, k: nat, q: int)
    requires IsRun(states, events) && k <= |events| && Covered(states[0])
    requires forall i :: 0 <= i < k ==> !events[i].UpdateTargets?
    ensures Inv(states[k]) && Covered(states[k])
    ensures states[k].phase.Idle? && states[k].outstanding == multiset{} && states[k].targets != {}
      && IsQuorumValue(states[k].matches, states[k].targets, q)
      ==> q <= states[k].journalCommit
  {
    if k > 0 {
      NothingForgotten(states, events, k - 1, q);
      assert StepAt(states, events, k - 1);
      StepCovers(states[k - 1], events[k - 1]);
    }
  }

  /** What a majority has, it has up to any smaller index. */
  lemma MajorityHasLess(matches: map<Server, int>, targets: set<Server>, v: int, w: int)
    requires targets <= matches.Keys && v <= w && MajorityHas(matches, targets, w)
    ensures MajorityHas(matches, targets, v)
  {
    Subset(Reached(matches, targets, w), Reached(matches, targets, v));
  }

  /** The quorum value is at most x exactly if no majority has the entry after x. */
  lemma QuorumValueAtMost(matches: map<Server, int>, targets: set<Server>, q: int, x: int)
    requires targets <= matches.Keys && IsQuorumValue(matches, targets, q)
    ensures q <= x <==> !MajorityHas(matches, targets, x + 1)
  {
    if q > x {
      MajorityHasLess(matches, targets, x + 1, q);
    }
  }

  /**
   * A membership change can raise what a majority has without anyone reporting it. Exactly when it does
   * not: no majority of the new members has an entry beyond the journal's commit index, or beyond a
   * value whose report is on its way.
   */
  lemma MembershipChangeCovers(t: Tracker, servers: set<Server>)
    requires Inv(t) && t.phase.Idle?
    ensures var u := Step(t, UpdateTargets(servers));
      Covered(u) <==>
        || servers == {}
        || !MajorityHas(u.matches, servers, t.journalCommit + 1)
        || exists x :: x in t.outstanding && !MajorityHas(u.matches, servers, x + 1)
  {
    var u := Step(t, UpdateTargets(servers));
    if servers != {} {
      var q := QuorumValueExists(u.matches, servers);
      QuorumValueAtMost(u.matches, servers, q, t.journalCommit);
      forall x | x in t.outstanding ensures x >= q <==> !MajorityHas(u.matches, servers, x + 1) {
        QuorumValueAtMost(u.matches, servers, q, x);
      }
      forall w | IsQuorumValue(u.matches, servers, w) ensures w == q {
        QuorumValueUnique(u.matches, servers, w, q);
      }
      assert Covered(u) <==> q <= t.journalCommit || exists x :: x in t.outstanding && x >= q;
    }
  }

  /** Three followers become one, which is ahead of the others. */
  lemma MembershipChangeUncovers()
    ensures var a: Server, b: Server, c: Server := [1], [2], [3];
      var t := Tracker(map[a := 5, b := 0, c := 0], {a, b, c}, multiset{}, Idle, 0, false, 0, 10);
      Inv(t) && Covered(t) && !Covered(Step(t, UpdateTargets({a})))
  {
    var a: Server, b: Server, c: Server := [1], [2], [3];
    var t := Tracker(map[a := 5, b := 0, c := 0], {a, b, c}, multiset{}, Idle, 0, false, 0, 10);
    assert |t.targets| == 3;
    forall q | IsQuorumValue(t.matches, t.targets, q) ensures q <= 0 {
      assert q > 0 ==> Reached(t.matches, t.targets, q) <= {a};
      if q > 0 {
        Subset(Reached(t.matches, t.targets, q), {a});
      }
    }
    var u := Step(t, UpdateTargets({a}));
    forall w ensures MajorityHas(u.matches, {a}, w) <==> w <= 5 {
      assert Reached(u.matches, {a}, w) == if w <= 5 then {a} else {};
    }
    assert IsQuorumValue(u.matches, u.targets, 5);
  }

  // ---------------------------------------------------------------- the class

  /** RaftMatchIndexTracker: shared by the registrations, the targets and the thread that replicates to the server. */
  class MatchIndex {
    var value: int

    constructor ()
      ensures value == 0
    {
      value := 0;
    }
  }

  class Journal {
    var commitIndex: int
    var logSize: int

    /** setCommitIndex (src/raft/RaftJournal.cc:257-272); it throws for entries that do not exist. */
    method SetCommitIndex(newIndex: int) returns (ok: bool)
      requires newIndex < logSize
      modifies `commitIndex
      ensures ok <==> newIndex >= old(commitIndex)
      ensures commitIndex == if ok then newIndex else old(commitIndex)
    {
      if newIndex < commitIndex {
        return false;
      }
      commitIndex := newIndex;
      return true;
    }
  }

  function ToSet(servers: seq<Server>): set<Server>
  {
    set s | s in servers
  }

  predicate Distinct(servers: seq<Server>)
  {
    forall i, j :: 0 <= i < j < |servers| ==> servers[i] != servers[j]
  }

  lemma {:induction false} ToSetSize(servers: seq<Server>)
    requires Distinct(servers)
    ensures |ToSet(servers)| == |servers|
  {
    if servers != [] {
      var n := |servers| - 1;
      ToSetSize(servers[..n]);
      ToSetNext(servers, n);
      assert servers[..n + 1] == servers;
    }
  }

  lemma ToSetNext(servers: seq<Server>, i: nat)
    requires i < |servers| && Distinct(servers)
    ensures ToSet(servers[..i + 1]) == ToSet(servers[..i]) + {servers[i]} && servers[i] !in ToSet(servers[..i])
  {
    assert servers[..i + 1] == servers[..i] + [servers[i]];
  }

  lemma RegisteredNone(matches: map<Server, int>)
    ensures Registered(matches, {}) == matches
  {
  }

  lemma RegisteredMore(matches: map<Server, int>, servers: set<Server>, s: Server)
    ensures Registered(Registered(matches, servers), {s}) == Registered(matches, servers + {s})
  {
  }

  lemma RegisteredOne(matches: map<Server, int>, s: Server)
    ensures Registered(matches, {s}) == if s in matches then matches else matches[s := 0]
  {
  }

  class LeaderCommit {
    const journal: Journal
    var quorumSize: nat
    var registrations: map<Server, MatchIndex>
    var targets: map<Server, MatchIndex>
    var matchIndexes: seq<int>
    var commitIndex: int
    var lagging: bool

    ghost function Matches(): map<Server, int>
      reads this, registrations.Values
    {
      map s | s in registrations :: registrations[s].value
    }

    /** The targets share their match indexes with the registrations. */
    ghost predicate Shape()
      reads this
    {
      targets.Keys <= registrations.Keys && forall s :: s in targets ==> targets[s] == registrations[s]
    }

    ghost predicate Fits()
      reads this, journal, registrations.Values
    {
      && Shape() && 0 <= commitIndex <= journal.commitIndex < journal.logSize
      && forall s :: s in registrations ==> registrations[s].value < journal.logSize
    }

    ghost predicate Valid()
      reads this, journal, registrations.Values
    {
      Fits() && quorumSize == QuorumSize(|targets.Keys|)
    }

    /** As the protocol sees it when nobody holds the lock and nothing is to be reported. */
    ghost function Value(): Tracker
      reads this, journal, registrations.Values
    {
      Tracker(Matches(), targets.Keys, multiset{}, Idle, commitIndex, lagging, journal.commitIndex, journal.logSize)
    }

    constructor (j: Journal)
      requires 0 <= j.commitIndex < j.logSize
      ensures Valid() && journal == j && registrations == map[] && targets == map[]
    {
      journal, quorumSize, registrations, targets := j, 1, map[], map[];
      matchIndexes, commitIndex, lagging := [], 0, false;
    }

    /** getHandlerInternal (src/raft/RaftCommitTracker.cc:66-74). */
    method GetHandler(server: Server) returns (handler: MatchIndex)
      requires Fits()
      modifies `registrations
      ensures Fits() && server in registrations && handler == registrations[server]
      ensures Matches() == Registered(old(Matches()), {server})
      ensures forall s :: s in old(registrations) ==> s in registrations && registrations[s] == old(registrations)[s]
    {
      RegisteredOne(Matches(), server);
      if server !in registrations {
        Enroll(server);
      }
      handler := registrations[server];
    }

    method Enroll(server: Server)
      requires Fits() && server !in registrations
      modifies `registrations
      ensures Fits() && server in registrations
      ensures Matches() == old(Matches())[server := 0]
      ensures forall s :: s in old(registrations) ==> s in registrations && registrations[s] == old(registrations)[s]
    {
      var handler := new MatchIndex();
      registrations := registrations[server := handler];
    }

    /** updateTargets (src/raft/RaftCommitTracker.cc:76-97): whoever was known keeps its match index. */
    method UpdateTargets(servers: seq<Server>)
      requires Valid() && Distinct(servers)
      modifies `registrations, `targets, `quorumSize
      ensures Valid() && targets.Keys == ToSet(servers)
      ensures Matches() == Registered(old(Matches()), ToSet(servers))
    {
      ghost var m := Matches();
      targets, quorumSize := map[], QuorumSize(|servers|);
      assert Matches() == m;
      RetargetAll(servers, m);
      ToSetSize(servers);
    }

    method RetargetAll(servers: seq<Server>, ghost m: map<Server, int>)
      requires Fits() && targets == map[] && Distinct(servers) && Matches() == m
      modifies `registrations, `targets
      ensures Fits() && targets.Keys == ToSet(servers) && Matches() == Registered(m, ToSet(servers))
    {
      ghost var done := {};
      RegisteredNone(m);
      var i := 0;
      while i < |servers|
        invariant 0 <= i <= |servers| && Fits() && done == ToSet(servers[..i])
        invariant targets.Keys == done && Matches() == Registered(m, done)
      {
        ToSetNext(servers, i);
        RegisteredMore(m, done, servers[i]);
        Retarget(servers[i]);
        done := done + {servers[i]};
        i := i + 1;
      }
      assert servers[..i] == servers;
    }

    method Retarget(server: Server)
      requires Fits() && server !in targets
      modifies `registrations, `targets
      ensures Fits() && targets.Keys == old(targets.Keys) + {server}
      ensures Matches() == Registered(old(Matches()), {server})
    {
      var handler := GetHandler(server);
      targets := targets[server := handler];
    }

    /**
     * recalculateCommitIndex's loop (src/raft/RaftCommitTracker.cc:145-149): the targets' match indexes, in
     * some order.
     */
    method CollectIndexes() returns (indexes: seq<int>)
      requires Shape()
      ensures Lists(indexes, Matches(), targets.Keys)
    {
      indexes := [];
      var todo := targets.Keys;
      ghost var matches, done := Matches(), {};
      NothingListed(matches);
      while todo != {}
        invariant todo <= targets.Keys && done == targets.Keys - todo
        invariant Lists(indexes, matches, done)
        decreases |todo|
      {
        var s :| s in todo;
        ListsMore(indexes, matches, done, s);
        indexes := indexes + [targets[s].value];
        todo, done := todo - {s}, done + {s};
      }
    }

    /** updateCommitIndex (src/raft/RaftCommitTracker.cc:115-129). */
    method UpdateCommitIndex(v: int)
      requires Valid() && v < journal.logSize
      modifies `commitIndex, `lagging, journal`commitIndex
      ensures Valid() && Matches() == old(Matches()) && Value() == Committed(old(Value()), v)
    {
      if v < journal.commitIndex {
        lagging := true;
      } else {
        lagging := false;
        commitIndex := v;
        var ok := journal.SetCommitIndex(commitIndex);
        assert ok;
      }
    }

    /** recalculateCommitIndex (src/raft/RaftCommitTracker.cc:131-152). */
    method Recalculate() returns (ghost v: int)
      requires Valid()
      modifies `matchIndexes, `commitIndex, `lagging, journal`commitIndex
      ensures Valid()
      ensures targets == map[] ==> Value() == old(Value())
      ensures targets != map[] ==> IsQuorumValue(Matches(), targets.Keys, v) && Value() == Committed(old(Value()), v)
    {
      v := 0;
      if targets == map[] {
        return;
      }
      var picked := Pick();
      v := picked;
      UpdateCommitIndex(picked);
    }

    method Pick() returns (v: int)
      requires Valid() && targets != map[]
      modifies `matchIndexes
      ensures Valid() && v < journal.logSize && IsQuorumValue(Matches(), targets.Keys, v)
    {
      ghost var matches := Matches();
      assert targets.Keys != {};
      var indexes := CollectIndexes();
      PickedIsQuorumValue(indexes, matches, targets.Keys);
      matchIndexes := Sort(indexes);
      v := matchIndexes[|matchIndexes| + 1 - quorumSize];
      assert Matches() == matches;
      QuorumValueLogged(matches, targets.Keys, v, journal.logSize);
    }

    /** updated (src/raft/RaftCommitTracker.cc:154-158). */
    method Updated(val: int) returns (ghost v: int)
      requires Valid()
      modifies `matchIndexes, `commitIndex, `lagging, journal`commitIndex
      ensures Valid()
      ensures val <= old(commitIndex) || targets == map[] ==> Value() == old(Value())
      ensures val > old(commitIndex) && targets != map[] ==>
        IsQuorumValue(Matches(), targets.Keys, v) && Value() == Committed(old(Value()), v)
    {
      v := 0;
      if val <= commitIndex {
        return;
      }
      v := Recalculate();
    }
  }
}
