/** Counting fetches and triggering replication once (internal/content/replication.go). */
module Replication {
  import opened Hashing

  /** The locked map from CIDs to counters, and the atomic counters it points to. */
  datatype Table = Table(index: map<Cid, nat>, counters: seq<nat>)

  ghost predicate TableValid(t: Table) {
    && (forall c | c in t.index :: t.index[c] < |t.counters|)
    && (forall c, d | c in t.index && d in t.index && c != d :: t.index[c] != t.index[d])
  }

  function Count(t: Table, cid: Cid): nat {
    if cid in t.index && t.index[cid] < |t.counters| then t.counters[t.index[cid]] else 0
  }

  /** The section under the lock: find the counter of a CID, or make one. */
  function LookedUp(t: Table, cid: Cid): Table {
    if cid in t.index then t else Table(t.index[cid := |t.counters|], t.counters + [0])
  }

  /** The atomic addition, outside the lock. */
  function Added(t: Table, k: nat): Table
    requires k < |t.counters|
  {
    t.(counters := t.counters[k := t.counters[k] + 1])
  }

  class ReplicationTracker {
    const threshold: int
    var fetchCount: map<Cid, nat>
    var counters: seq<nat>

    constructor (threshold: int)
      ensures Value() == Table(map[], []) && this.threshold == threshold
    {
      this.threshold, fetchCount, counters := threshold, map[], [];
    }

    function Value(): Table
      reads this
    {
      Table(fetchCount, counters)
    }

    method Lookup(cid: Cid) returns (k: nat)
      requires TableValid(Value())
      modifies this
      ensures Value() == LookedUp(old(Value()), cid) && cid in fetchCount && k == fetchCount[cid] < |counters|
    {
      if cid !in fetchCount {
        fetchCount := fetchCount[cid := |counters|];
        counters := counters + [0];
      }
      return fetchCount[cid];
    }

    /** The atomic addition returns what it made of the counter. */
    method Add(k: nat) returns (count: nat)
      requires k < |counters|
      modifies this
      ensures Value() == Added(old(Value()), k) && count == counters[k]
    {
      counters := counters[k := counters[k] + 1];
      return counters[k];
    }

    /** A call with no other beside it. */
    method RecordFetch(cid: Cid) returns (triggers: bool)
      requires TableValid(Value())
      modifies this
      ensures TableValid(Value())
      ensures forall c :: Count(Value(), c) == Count(old(Value()), c) + (if c == cid then 1 else 0)
      ensures triggers <==> Count(Value(), cid) == threshold
    {
      hide TableValid, Count, LookedUp, Added;
      LookupValid(Value(), cid);
      var k := Lookup(cid);
      AddedCounts(Value(), cid);
      CountIs(Value(), cid);
      var count := Add(k);
      CountIs(Value(), cid);
      return count == threshold;
    }

    /** `PopularBlocks`, in the map's own arbitrary order. */
    method PopularBlocks() returns (popular: seq<Cid>)
      requires TableValid(Value())
      ensures multiset(popular) == multiset(Popular(Value(), threshold))
    {
      popular := [];
      var rest := fetchCount.Keys;
      while rest != {}
        invariant rest <= fetchCount.Keys
        invariant multiset(popular) == multiset(PopularAmong(Value(), threshold, fetchCount.Keys - rest))
      {
        var cid :| cid in rest;
        AmongOneMore(Value(), threshold, fetchCount.Keys, rest, cid);
        if counters[fetchCount[cid]] >= threshold {
          popular := popular + [cid];
        }
        rest := rest - {cid};
      }
      assert fetchCount.Keys - {} == fetchCount.Keys;
    }
  }

  function PopularAmong(t: Table, threshold: int, cids: set<Cid>): set<Cid> {
    set c | c in cids && Count(t, c) >= threshold
  }

  lemma AmongOneMore(t: Table, threshold: int, all: set<Cid>, rest: set<Cid>, cid: Cid)
    requires cid in rest && rest <= all
    ensures multiset(PopularAmong(t, threshold, all - (rest - {cid})))
         == multiset(PopularAmong(t, threshold, all - rest))
            + (if Count(t, cid) >= threshold then multiset{cid} else multiset{})
  {
    var before := PopularAmong(t, threshold, all - rest);
    assert PopularAmong(t, threshold, all - (rest - {cid}))
        == if Count(t, cid) >= threshold then before + {cid} else before;
  }

  function Popular(t: Table, threshold: int): set<Cid> {
    PopularAmong(t, threshold, t.index.Keys)
  }

  // ----- Concurrent calls of RecordFetch -----

  /** Where a call is: before the lock, holding a counter, holding the count its addition made, or returned. */
  datatype Phase = Started | Holding(counter: nat) | Counted(count: nat) | Done(triggered: bool)

  datatype Call = Call(cid: Cid, phase: Phase)

  datatype World = World(table: Table, calls: seq<Call>)

  datatype Event = Begin(cid: Cid) | LookUp(c: nat) | Increment(c: nat) | Return(c: nat)

  ghost predicate Step(threshold: int, w: World, ev: Event, w': World) {
    match ev
    case Begin(cid) => w' == w.(calls := w.calls + [Call(cid, Started)])
    case LookUp(c) =>
      && c < |w.calls| && w.calls[c].phase == Started
      && var t := LookedUp(w.table, w.calls[c].cid);
         w' == World(t, w.calls[c := w.calls[c].(phase := Holding(t.index[w.calls[c].cid]))])
    case Increment(c) =>
      && c < |w.calls| && w.calls[c].phase.Holding? && w.calls[c].phase.counter < |w.table.counters|
      && var k := w.calls[c].phase.counter;
         var t := Added(w.table, k);
         w' == World(t, w.calls[c := w.calls[c].(phase := Counted(t.counters[k]))])
    case Return(c) =>
      && c < |w.calls| && w.calls[c].phase.Counted?
      && w' == w.(calls := w.calls[c := w.calls[c].(phase := Done(w.calls[c].phase.count == threshold))])
  }

  ghost predicate IsRun(threshold: int, ws: seq<World>, evs: seq<Event>) {
    && |ws| == |evs| + 1 && ws[0] == World(Table(map[], []), [])
    && forall i | 0 <= i < |evs| :: Step(threshold, ws[i], evs[i], ws[i + 1])
  }

  /** How many calls for a CID are in a phase of the given kind. */
  function Number(calls: seq<Call>, cid: Cid, kind: Phase -> bool): nat {
    if calls == [] then 0
    else (if calls[0].cid == cid && kind(calls[0].phase) then 1 else 0) + Number(calls[1..], cid, kind)
  }

  /** The call has made its addition. */
  function Adding(): Phase -> bool {
    (p: Phase) => p.Counted? || p.Done?
  }

  /** The call has reached the threshold, whether or not it has returned. */
  function Winning(threshold: int): Phase -> bool {
    (p: Phase) => p == Done(true) || (p.Counted? && p.count == threshold)
  }

  function Completing(): Phase -> bool {
    (p: Phase) => p.Done?
  }

  function Triggering(): Phase -> bool {
    (p: Phase) => p == Done(true)
  }

  lemma {:induction false} PhaseChange(calls: seq<Call>, c: nat, p: Phase, cid: Cid, kind: Phase -> bool)
    requires c < |calls|
    ensures Number(calls[c := calls[c].(phase := p)], cid, kind) - (if calls[c].cid == cid && kind(p) then 1 else 0)
         == Number(calls, cid, kind) - (if calls[c].cid == cid && kind(calls[c].phase) then 1 else 0)
  {
    var after := calls[c := calls[c].(phase := p)];
    if c == 0 {
      assert after[1..] == calls[1..];
    } else {
      assert after[1..] == calls[1..][c - 1 := calls[c].(phase := p)];
      PhaseChange(calls[1..], c - 1, p, cid, kind);
    }
  }

  lemma {:induction false} CallBegins(calls: seq<Call>, call: Call, cid: Cid, kind: Phase -> bool)
    requires !kind(call.phase)
    ensures Number(calls + [call], cid, kind) == Number(calls, cid, kind)
  {
    if calls == [] {
      assert calls + [call] == [call] && [call][1..] == [];
    } else {
      assert (calls + [call])[1..] == calls[1..] + [call];
      CallBegins(calls[1..], call, cid, kind);
    }
  }

  /** For one CID: its counter counts the additions, and one call reached the threshold once they are that many. */
  ghost predicate Exact(threshold: int, w: World, cid: Cid) {
    && Count(w.table, cid) == Number(w.calls, cid, Adding())
    && Number(w.calls, cid, Winning(threshold)) == if 1 <= threshold <= Count(w.table, cid) then 1 else 0
  }

  ghost predicate Invariant(threshold: int, w: World) {
    && TableValid(w.table)
    && (forall c | 0 <= c < |w.calls| && w.calls[c].phase.Holding? ::
          w.calls[c].cid in w.table.index && w.table.index[w.calls[c].cid] == w.calls[c].phase.counter)
    && forall cid :: Exact(threshold, w, cid)
  }

  lemma LookupValid(t: Table, cid: Cid)
    requires TableValid(t)
    ensures TableValid(LookedUp(t, cid)) && cid in LookedUp(t, cid).index
    ensures forall c :: Count(LookedUp(t, cid), c) == Count(t, c)
    ensures forall c | c in t.index :: c in LookedUp(t, cid).index && LookedUp(t, cid).index[c] == t.index[c]
  {
  }

  lemma CountIs(t: Table, cid: Cid)
    requires TableValid(t) && cid in t.index
    ensures t.index[cid] < |t.counters| && Count(t, cid) == t.counters[t.index[cid]]
  {
  }

  lemma AddedCounts(t: Table, cid: Cid)
    requires TableValid(t) && cid in t.index
    ensures t.index[cid] < |t.counters|
    ensures var u := Added(t, t.index[cid]);
            TableValid(u) && u.index == t.index && forall c :: Count(u, c) == Count(t, c) + (if c == cid then 1 else 0)
  {
    var u := Added(t, t.index[cid]);
    assert u.index == t.index;
  }

  lemma StepInvariant(threshold: int, w: World, ev: Event, w': World)
    requires Invariant(threshold, w) && Step(threshold, w, ev, w')
    ensures Invariant(threshold, w')
  {
    hide TableValid, Count, LookedUp, Added;
    match ev
    case Begin(b) =>
      forall cid ensures Exact(threshold, w', cid) {
        CallBegins(w.calls, Call(b, Started), cid, Adding());
        CallBegins(w.calls, Call(b, Started), cid, Winning(threshold));
        assert Exact(threshold, w, cid);
      }
    case LookUp(c) =>
      LookupValid(w.table, w.calls[c].cid);
      forall cid ensures Exact(threshold, w', cid) {
        OneCallMoves(threshold, w, c, w', cid);
      }
    case Increment(c) =>
      IncrementInvariant(threshold, w, c, w');
    case Return(c) =>
      forall cid ensures Exact(threshold, w', cid) {
        OneCallMoves(threshold, w, c, w', cid);
      }
  }

  /** The two numbers `Exact` speaks of, after one call changed its phase. */
  lemma OneCallMoves(threshold: int, w: World, c: nat, w': World, cid: Cid)
    requires Exact(threshold, w, cid) && c < |w.calls| == |w'.calls| && w'.calls[c].cid == w.calls[c].cid
    requires w'.calls == w.calls[c := w.calls[c].(phase := w'.calls[c].phase)]
    ensures var change := (kind: Phase -> bool) =>
              (if w.calls[c].cid != cid then 0
               else (if kind(w'.calls[c].phase) then 1 else 0) - (if kind(w.calls[c].phase) then 1 else 0));
            && Number(w'.calls, cid, Adding()) == Count(w.table, cid) + change(Adding())
            && Number(w'.calls, cid, Winning(threshold))
               == (if 1 <= threshold <= Count(w.table, cid) then 1 else 0) + change(Winning(threshold))
  {
    PhaseChange(w.calls, c, w'.calls[c].phase, cid, Adding());
    PhaseChange(w.calls, c, w'.calls[c].phase, cid, Winning(threshold));
  }

  lemma IncrementInvariant(threshold: int, w: World, c: nat, w': World)
    requires Invariant(threshold, w) && Step(threshold, w, Increment(c), w')
    ensures Invariant(threshold, w')
  {
    hide TableValid, Count;
    var own := w.calls[c].cid;
    AddedCounts(w.table, own);
    CountIs(w'.table, own);
    forall cid ensures Exact(threshold, w', cid) {
      OneCallMoves(threshold, w, c, w', cid);
    }
  }

  lemma {:induction false} RunInvariant(threshold: int, ws: seq<World>, evs: seq<Event>, i: nat)
    requires IsRun(threshold, ws, evs) && i < |ws|
    ensures Invariant(threshold, ws[i])
  {
    if i > 0 {
      RunInvariant(threshold, ws, evs, i - 1);
      StepInvariant(threshold, ws[i - 1], evs[i - 1], ws[i]);
    }
  }

  /** No call for the CID is under way. */
  ghost predicate Quiet(calls: seq<Call>, cid: Cid) {
    forall c | 0 <= c < |calls| && calls[c].cid == cid :: calls[c].phase.Done?
  }

  lemma {:induction false} NumbersCompare(calls: seq<Call>, cid: Cid, threshold: int)
    ensures Number(calls, cid, Triggering()) <= Number(calls, cid, Winning(threshold))
    ensures Number(calls, cid, Completing()) <= Number(calls, cid, Adding())
    ensures Quiet(calls, cid) ==>
              && Number(calls, cid, Triggering()) == Number(calls, cid, Winning(threshold))
              && Number(calls, cid, Completing()) == Number(calls, cid, Adding())
  {
    if calls != [] {
      assert Quiet(calls, cid) ==> Quiet(calls[1..], cid);
      NumbersCompare(calls[1..], cid, threshold);
    }
  }

  /**
   * However the calls interleave, with a threshold of at least 1: at most one call for a CID returns true, none
   * before `threshold` additions were made, and once no call for it is under way exactly one has if and only if
   * that many were made. The popular blocks are those with `threshold` additions, returned or not.
   */
  lemma TriggersExactlyOnce(threshold: int, ws: seq<World>, evs: seq<Event>, i: nat, cid: Cid)
    requires IsRun(threshold, ws, evs) && i < |ws| && threshold >= 1
    ensures var calls := ws[i].calls;
            var triggered, added := Number(calls, cid, Triggering()), Number(calls, cid, Adding());
            && triggered <= 1
            && (triggered == 1 ==> added >= threshold)
            && (Quiet(calls, cid) ==>
                  added == Number(calls, cid, Completing()) && (triggered == 1 <==> added >= threshold))
            && (cid in Popular(ws[i].table, threshold) <==> added >= threshold)
  {
    RunInvariant(threshold, ws, evs, i);
    assert Exact(threshold, ws[i], cid);
    NumbersCompare(ws[i].calls, cid, threshold);
  }

  /**
   * Additions are not returns: with threshold 2, a block can be popular when no call has returned, and the call that
   * made the second addition can return true as the only one that has returned at all.
   */
  lemma TriggersBeforeOthersReturn(cid: Cid) returns (ws: seq<World>, evs: seq<Event>)
    ensures IsRun(2, ws, evs) && |evs| == 7
    ensures cid in Popular(ws[6].table, 2) && Number(ws[6].calls, cid, Completing()) == 0
    ensures Number(ws[7].calls, cid, Completing()) == Number(ws[7].calls, cid, Triggering()) == 1
  {
    hide Number, TableValid, IsRun, Popular;
    var d := Call(cid, Done(true));
    ws, evs := BothAdded(cid);
    var c1, c2, two := Call(cid, Counted(1)), Call(cid, Counted(2)), Table(map[cid := 0], [2]);
    var last := World(two, [c1, d]);
    assert Step(2, ws[6], Return(1), last);
    OneStepMore(2, ws, evs, Return(1), last);
    ws, evs := ws + [last], evs + [Return(1)];
    OfTwo(c1, c2, cid, Completing());
    OfTwo(c1, d, cid, Completing());
    OfTwo(c1, d, cid, Triggering());
  }

  /** Two calls for one CID have made their additions, and neither has returned. */
  lemma BothAdded(cid: Cid) returns (ws: seq<World>, evs: seq<Event>)
    ensures IsRun(2, ws, evs) && |evs| == 6 && |ws| == 7
    ensures ws[6] == World(Table(map[cid := 0], [2]), [Call(cid, Counted(1)), Call(cid, Counted(2))])
    ensures cid in Popular(ws[6].table, 2)
  {
    hide Number, TableValid;
    evs := [Begin(cid), Begin(cid), LookUp(0), LookUp(1), Increment(0), Increment(1)];
    var none, zero := Table(map[], []), Table(map[cid := 0], [0]);
    var one, two := Table(map[cid := 0], [1]), Table(map[cid := 0], [2]);
    var s, h := Call(cid, Started), Call(cid, Holding(0));
    var c1, c2 := Call(cid, Counted(1)), Call(cid, Counted(2));
    ws := [World(none, []), World(none, [s]), World(none, [s, s]), World(zero, [h, s]), World(zero, [h, h]),
           World(one, [c1, h]), World(two, [c1, c2])];
    assert Step(2, ws[0], evs[0], ws[1]) && Step(2, ws[1], evs[1], ws[2]);
    assert Step(2, ws[2], evs[2], ws[3]) && Step(2, ws[3], evs[3], ws[4]);
    assert Step(2, ws[4], evs[4], ws[5]) && Step(2, ws[5], evs[5], ws[6]);
  }

  lemma OneStepMore(threshold: int, ws: seq<World>, evs: seq<Event>, ev: Event, w: World)
    requires IsRun(threshold, ws, evs) && Step(threshold, ws[|evs|], ev, w)
    ensures IsRun(threshold, ws + [w], evs + [ev])
  {
    hide Step;
  }

  lemma OfTwo(c: Call, d: Call, cid: Cid, kind: Phase -> bool)
    requires c.cid == cid == d.cid
    ensures Number([c, d], cid, kind) == (if kind(c.phase) then 1 else 0) + (if kind(d.phase) then 1 else 0)
  {
    assert [c, d][1..] == [d] && [d][1..] == [];
    assert Number([d], cid, kind) == if kind(d.phase) then 1 else 0;
  }

  /** A popular block stays popular, so a listing taken while calls go on lies between its first and last moments. */
  lemma {:induction false} PopularGrows(threshold: int, ws: seq<World>, evs: seq<Event>, i: nat, j: nat)
    requires IsRun(threshold, ws, evs) && i <= j < |ws|
    ensures Popular(ws[i].table, threshold) <= Popular(ws[j].table, threshold)
  {
    if i < j {
      PopularGrows(threshold, ws, evs, i, j - 1);
      RunInvariant(threshold, ws, evs, j - 1);
      StepGrows(threshold, ws[j - 1], evs[j - 1], ws[j]);
    }
  }

  lemma StepGrows(threshold: int, w: World, ev: Event, w': World)
    requires Invariant(threshold, w) && Step(threshold, w, ev, w')
    ensures Popular(w.table, threshold) <= Popular(w'.table, threshold)
  {
    hide TableValid, Count;
    match ev
    case LookUp(c) => LookupValid(w.table, w.calls[c].cid);
    case Increment(c) => AddedCounts(w.table, w.calls[c].cid);
    case _ =>
  }

  /** Calls for one CID never hold two counters, nor calls for two CIDs the same one. */
  lemma OneCounterPerCid(threshold: int, ws: seq<World>, evs: seq<Event>, i: nat, c: nat, d: nat)
    requires IsRun(threshold, ws, evs) && i < |ws| && c < |ws[i].calls| && d < |ws[i].calls|
    requires ws[i].calls[c].phase.Holding? && ws[i].calls[d].phase.Holding?
    ensures ws[i].calls[c].cid == ws[i].calls[d].cid <==> ws[i].calls[c].phase.counter == ws[i].calls[d].phase.counter
  {
    RunInvariant(threshold, ws, evs, i);
  }
}
