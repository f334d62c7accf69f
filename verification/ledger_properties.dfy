/**
 * Properties of the subscription ledger: what one acquire or release does to
 * the ledger invariant, what destroying a patron releases, and how the
 * create and delete requests for one key follow its reference count.
 */
module LedgerProperties {

  import opened Naming
  import opened Transport
  import opened Ledger

  /** An acquire keeps every stored count at one or more. */
  lemma AcquireKeepsPositive(L: Subscribers, names: Namer, p: PatronId, t: Topic, refused: set<Call>)
    requires Positive(L)
    ensures Positive(Acquire(L, names, p, t, refused).ledger)
  {
  }

  /** A release whose delete request (if any) succeeds keeps every stored count at one or more. */
  lemma ReleaseKeepsPositive(L: Subscribers, names: Namer, p: PatronId, t: Topic, refused: set<Call>)
    requires Positive(L)
    requires !Release(L, names, p, t, refused).raised
    ensures Positive(Release(L, names, p, t, refused).ledger)
  {
  }

  /**
   * When the delete request raises, the entry is not removed: it stays with a
   * count of 0 or less, and the ledger invariant no longer holds.
   */
  lemma FailedDeleteLeavesEntry(L: Subscribers, names: Namer, p: PatronId, t: Topic, refused: set<Call>)
    requires Count(L, p, t) <= 1
    requires DeleteCall(names, p, t) in refused
    ensures var r := Release(L, names, p, t, refused);
      r.raised && r.calls == [DeleteCall(names, p, t)] &&
      Stored(r.ledger, p, t) && r.ledger[p].counts[t] <= 0 && !Positive(r.ledger)
  {
  }

  /**
   * A release of a key the ledger does not hold still goes below zero and
   * makes a delete request; when that succeeds the ledger is as before, up to
   * the patron's auto-created inner dictionary.
   */
  lemma SpuriousReleaseDeletes(L: Subscribers, names: Namer, p: PatronId, t: Topic, refused: set<Call>)
    requires WellFormed(L)
    requires !Stored(L, p, t)
    ensures var r := Release(L, names, p, t, refused);
      r.calls == [DeleteCall(names, p, t)] &&
      (DeleteCall(names, p, t) !in refused ==> r.ledger == Vivify(L, p))
  {
    var d := Inner(L, p);
    assert t !in d.order;
    WithoutAppended(d.order, t);
    assert d.counts[t := -1] - {t} == d.counts;
  }

  /**
   * An acquire followed by a release of the same key gives the ledger back
   * (up to the auto-created inner dictionary). From an absent key this makes
   * exactly one create request and then one delete request; from a held key,
   * none.
   */
  lemma AcquireThenReleaseRestores(L: Subscribers, names: Namer, p: PatronId, t: Topic, refused: set<Call>)
    requires WellFormed(L)
    requires Stored(L, p, t) ==> Count(L, p, t) >= 1
    requires !Stored(L, p, t) ==> DeleteCall(names, p, t) !in refused
    ensures var a := Acquire(L, names, p, t, refused);
      var r := Release(a.ledger, names, p, t, refused);
      !r.raised && r.ledger == Vivify(L, p) &&
      a.calls + r.calls == if Stored(L, p, t) then [] else [CreateCall(names, p, t), DeleteCall(names, p, t)]
  {
    var d := Inner(L, p);
    if Stored(L, p, t) {
      assert d.counts[t := d.counts[t] + 1][t := d.counts[t]] == d.counts;
    } else {
      assert t !in d.order;
      WithoutAppended(d.order, t);
      assert d.counts[t := 1][t := 0] - {t} == d.counts;
    }
  }

  /**
   * A key stored with a count of 0 (left by a refused delete) is not given
   * back by an acquire and a release: the acquire makes a fresh create
   * request, and the release's delete then removes the key.
   */
  lemma AcquireThenReleaseFromZero(L: Subscribers, names: Namer, p: PatronId, t: Topic, refused: set<Call>)
    requires Stored(L, p, t) && Count(L, p, t) == 0
    requires DeleteCall(names, p, t) !in refused
    ensures var a := Acquire(L, names, p, t, refused);
      var r := Release(a.ledger, names, p, t, refused);
      !r.raised && !Stored(r.ledger, p, t) && r.ledger != L &&
      a.calls + r.calls == [CreateCall(names, p, t), DeleteCall(names, p, t)]
  {
    var r := Release(Acquire(L, names, p, t, refused).ledger, names, p, t, refused);
    assert !Stored(r.ledger, p, t);
  }

  /**
   * Two acquires and two releases of one key, from absent: the count goes
   * 1, 2, 1, 0, one create request is made, then one delete request, and the
   * ledger ends as it began.
   */
  lemma SharedKeyScenario(L: Subscribers, names: Namer, p: PatronId, t: Topic, refused: set<Call>)
    requires WellFormed(L)
    requires !Stored(L, p, t)
    requires DeleteCall(names, p, t) !in refused
    ensures var a1 := Acquire(L, names, p, t, refused);
      var a2 := Acquire(a1.ledger, names, p, t, refused);
      var r1 := Release(a2.ledger, names, p, t, refused);
      var r2 := Release(r1.ledger, names, p, t, refused);
      Count(a1.ledger, p, t) == 1 && Count(a2.ledger, p, t) == 2 &&
      Count(r1.ledger, p, t) == 1 && Count(r2.ledger, p, t) == 0 &&
      a1.calls + a2.calls + r1.calls + r2.calls == [CreateCall(names, p, t), DeleteCall(names, p, t)] &&
      r2.ledger == Vivify(L, p)
  {
    var a1 := Acquire(L, names, p, t, refused);
    AcquireWellFormed(L, names, p, t, refused);
    AcquireThenReleaseRestores(a1.ledger, names, p, t, refused);
    AcquireThenReleaseRestores(L, names, p, t, refused);
    assert Vivify(a1.ledger, p) == a1.ledger;
  }

  /**
   * Two different patrons on one topic each get their own subscription: two
   * create requests, for two different subscription paths.
   */
  lemma TwoPatronsTwoSubscriptions(L: Subscribers, project: string, a: PatronId, b: PatronId, t: Topic, refused: set<Call>)
    requires a != b
    requires Count(L, a, t) == 0 && Count(L, b, t) == 0
    ensures var names := ProjectNames(project);
      var s1 := Acquire(L, names, a, t, refused);
      var s2 := Acquire(s1.ledger, names, b, t, refused);
      s1.calls + s2.calls == [CreateCall(names, a, t), CreateCall(names, b, t)] &&
      CreateCall(names, a, t) != CreateCall(names, b, t)
  {
    SameTopicPathsDiffer(project, a, b, t);
  }

  /**
   * When the create request raises, `start_patron` swallows the exception and
   * registers no handler, and the count of 1 is not rolled back.
   */
  lemma FailedStartRegistersNoHandler(L: Subscribers, names: Namer, p: PatronId, t: Topic, brewer: string, refused: set<Call>)
    requires Count(L, p, t) == 0
    requires CreateCall(names, p, t) in refused
    ensures var r := StartPatron(L, names, p, t, brewer, refused);
      !r.raised && r.calls == [CreateCall(names, p, t)] &&
      Stored(r.ledger, p, t) && Count(r.ledger, p, t) == 1
  {
  }

  /**
   * After a failed start, the next start of the same key makes no create
   * request: it registers a handler on a subscription that was never created.
   */
  lemma StartAfterFailedStartSkipsCreate(L: Subscribers, names: Namer, p: PatronId, t: Topic, brewer: string,
                                         refused: set<Call>, later: set<Call>)
    requires Count(L, p, t) == 0
    requires CreateCall(names, p, t) in refused
    ensures var r1 := StartPatron(L, names, p, t, brewer, refused);
      var r2 := StartPatron(r1.ledger, names, p, t, brewer, later);
      r2.calls == [SubscribeCall(names, p, t, brewer)] && Count(r2.ledger, p, t) == 2
  {
  }

  // ---------------------------------------------------------------------
  // Destroying a patron

  /** The topics of `ts` whose count in `d` is at most one, in order. */
  function Expiring(d: TopicCounts, ts: seq<Topic>): seq<Topic>
    decreases |ts|
  {
    if ts == [] then []
    else Expiring(d, ts[..|ts| - 1]) + (if d.Get(ts[|ts| - 1]) <= 1 then [ts[|ts| - 1]] else [])
  }

  /** One delete request per topic of `ts`, in order. */
  function Deletes(names: Namer, p: PatronId, ts: seq<Topic>): (r: seq<Call>)
    ensures |r| == |ts|
    decreases |ts|
  {
    if ts == [] then []
    else Deletes(names, p, ts[..|ts| - 1]) + [DeleteCall(names, p, ts[|ts| - 1])]
  }

  lemma DeletesAppend(names: Namer, p: PatronId, ts: seq<Topic>, t: Topic)
    ensures Deletes(names, p, ts + [t]) == Deletes(names, p, ts) + [DeleteCall(names, p, t)]
  {
    assert (ts + [t])[..|ts|] == ts;
  }

  lemma {:induction false} ExpiringAll(d: TopicCounts, ts: seq<Topic>)
    requires forall t | t in ts :: d.Get(t) <= 1
    ensures Expiring(d, ts) == ts
    decreases |ts|
  {
    if ts != [] {
      var init := ts[..|ts| - 1];
      assert forall t | t in init :: t in ts;
      ExpiringAll(d, init);
      assert ts == init + [ts[|ts| - 1]];
    }
  }

  /** No topic of `ts` occurs twice; stated from the last topic back, as the loop runs. */
  ghost predicate NoRepeats(ts: seq<Topic>)
    decreases |ts|
  {
    ts == [] || (ts[|ts| - 1] !in ts[..|ts| - 1] && NoRepeats(ts[..|ts| - 1]))
  }

  lemma {:induction false} DistinctNoRepeats(ts: seq<Topic>)
    requires Distinct(ts)
    ensures NoRepeats(ts)
    decreases |ts|
  {
    if ts != [] {
      var init := ts[..|ts| - 1];
      assert Distinct(init);
      assert ts[|ts| - 1] !in init;
      DistinctNoRepeats(init);
    }
  }

  /** When none of the delete requests for `ts` raises, the loop runs to its end. */
  lemma {:induction false} ReleaseEachSucceeds(L: Subscribers, names: Namer, p: PatronId, ts: seq<Topic>, refused: set<Call>)
    requires forall t | t in ts :: DeleteCall(names, p, t) !in refused
    ensures !ReleaseEach(L, names, p, ts, refused).raised
    decreases |ts|
  {
    if ts != [] {
      var init := ts[..|ts| - 1];
      assert forall t | t in init :: t in ts;
      ReleaseEachSucceeds(L, names, p, init, refused);
      assert ts[|ts| - 1] in ts;
    }
  }

  /** A non-empty loop that has not raised before its last topic ends with that topic's release. */
  lemma ReleaseEachLast(L: Subscribers, names: Namer, p: PatronId, ts: seq<Topic>, refused: set<Call>)
    requires ts != []
    requires !ReleaseEach(L, names, p, ts[..|ts| - 1], refused).raised
    ensures var s := ReleaseEach(L, names, p, ts[..|ts| - 1], refused);
      var last := Release(s.ledger, names, p, ts[|ts| - 1], refused);
      ReleaseEach(L, names, p, ts, refused) == Step(last.ledger, s.calls + last.calls, last.raised)
  {
  }

  /** The prefix of a loop that did not raise did not raise either. */
  lemma ReleaseEachPrefix(L: Subscribers, names: Namer, p: PatronId, ts: seq<Topic>, refused: set<Call>)
    requires ts != []
    requires !ReleaseEach(L, names, p, ts, refused).raised
    ensures !ReleaseEach(L, names, p, ts[..|ts| - 1], refused).raised
  {
  }

  /** A loop that did not raise left every key outside `ts` under `p` as it was. */
  lemma {:induction false} ReleaseEachOtherKey(L: Subscribers, names: Namer, p: PatronId, ts: seq<Topic>, refused: set<Call>,
                                               q: PatronId, u: Topic)
    requires !ReleaseEach(L, names, p, ts, refused).raised
    requires q != p || u !in ts
    ensures var r := ReleaseEach(L, names, p, ts, refused);
      Count(r.ledger, q, u) == Count(L, q, u) && (Stored(r.ledger, q, u) <==> Stored(L, q, u))
    decreases |ts|
  {
    if ts != [] {
      var init, x := ts[..|ts| - 1], ts[|ts| - 1];
      assert q != p || u !in init by {
        assert forall v | v in init :: v in ts;
      }
      assert q != p || u != x;
      ReleaseEachPrefix(L, names, p, ts, refused);
      ReleaseEachLast(L, names, p, ts, refused);
      ReleaseEachOtherKey(L, names, p, init, refused, q, u);
    }
  }

  /** What a release that did not raise did to its own key. */
  lemma ReleaseOwnKey(L: Subscribers, names: Namer, p: PatronId, t: Topic, refused: set<Call>)
    requires !Release(L, names, p, t, refused).raised
    ensures var r := Release(L, names, p, t, refused);
      (Stored(r.ledger, p, t) <==> Count(L, p, t) > 1) &&
      Count(r.ledger, p, t) == if Count(L, p, t) > 1 then Count(L, p, t) - 1 else 0
  {
  }

  /**
   * A release leaves every other key as it was: the frame clause of
   * `Release`, instantiated for one key so that loop proofs can call it.
   */
  lemma ReleaseOtherKey(L: Subscribers, names: Namer, p: PatronId, t: Topic, refused: set<Call>, q: PatronId, u: Topic)
    requires q != p || u != t
    ensures var r := Release(L, names, p, t, refused);
      Count(r.ledger, q, u) == Count(L, q, u) && (Stored(r.ledger, q, u) <==> Stored(L, q, u))
  {
  }

  /** A loop that did not raise released each topic of `ts` under `p` once. */
  lemma {:induction false} ReleaseEachKey(L: Subscribers, names: Namer, p: PatronId, ts: seq<Topic>, refused: set<Call>, u: Topic)
    requires NoRepeats(ts)
    requires !ReleaseEach(L, names, p, ts, refused).raised
    requires u in ts
    ensures var r := ReleaseEach(L, names, p, ts, refused);
      (Stored(r.ledger, p, u) <==> Count(L, p, u) > 1) &&
      Count(r.ledger, p, u) == if Count(L, p, u) > 1 then Count(L, p, u) - 1 else 0
    decreases |ts|
  {
    var init, x := ts[..|ts| - 1], ts[|ts| - 1];
    ReleaseEachPrefix(L, names, p, ts, refused);
    ReleaseEachLast(L, names, p, ts, refused);
    var s := ReleaseEach(L, names, p, init, refused);
    if u == x {
      ReleaseEachOtherKey(L, names, p, init, refused, p, x);
      ReleaseOwnKey(s.ledger, names, p, x, refused);
    } else {
      assert u in init by {
        assert ts == init + [x];
      }
      ReleaseEachKey(L, names, p, init, refused, u);
      ReleaseOtherKey(s.ledger, names, p, x, refused, p, u);
    }
  }

  /** The requests of a loop that did not raise: one delete per expiring topic, in order. */
  lemma {:induction false} ReleaseEachCalls(L: Subscribers, names: Namer, p: PatronId, ts: seq<Topic>, refused: set<Call>)
    requires NoRepeats(ts)
    requires !ReleaseEach(L, names, p, ts, refused).raised
    ensures ReleaseEach(L, names, p, ts, refused).calls == Deletes(names, p, Expiring(Inner(L, p), ts))
    decreases |ts|
  {
    if ts != [] {
      var init, x := ts[..|ts| - 1], ts[|ts| - 1];
      ReleaseEachPrefix(L, names, p, ts, refused);
      ReleaseEachLast(L, names, p, ts, refused);
      ReleaseEachCalls(L, names, p, init, refused);
      ReleaseEachOtherKey(L, names, p, init, refused, p, x);
      var s := ReleaseEach(L, names, p, init, refused);
      var last := Release(s.ledger, names, p, x, refused);
      var E := Expiring(Inner(L, p), init);
      assert Count(s.ledger, p, x) == Count(L, p, x);
      if Count(L, p, x) <= 1 {
        assert Expiring(Inner(L, p), ts) == E + [x];
        assert last.calls == [DeleteCall(names, p, x)];
        DeletesAppend(names, p, E, x);
      } else {
        assert Expiring(Inner(L, p), ts) == E + [];
        assert last.calls == [] && s.calls + last.calls == s.calls;
        assert ReleaseEach(L, names, p, ts, refused).calls == s.calls;
        assert s.calls == Deletes(names, p, E);
        assert Expiring(Inner(L, p), ts) == E;
      }
    }
  }

  /**
   * A loop that did not raise released every topic of `ts` exactly once:
   * a count above one went down by one, the others were removed with one
   * delete request each, in the order of `ts`, and nothing else changed.
   */
  lemma ReleaseEachReleasesOnce(L: Subscribers, names: Namer, p: PatronId, ts: seq<Topic>, refused: set<Call>)
    requires NoRepeats(ts)
    requires !ReleaseEach(L, names, p, ts, refused).raised
    ensures var r := ReleaseEach(L, names, p, ts, refused);
      && (forall t | t in ts ::
            (Stored(r.ledger, p, t) <==> Count(L, p, t) > 1) &&
            Count(r.ledger, p, t) == if Count(L, p, t) > 1 then Count(L, p, t) - 1 else 0)
      && (forall q, u | q != p || u !in ts ::
            Count(r.ledger, q, u) == Count(L, q, u) && (Stored(r.ledger, q, u) <==> Stored(L, q, u)))
      && r.calls == Deletes(names, p, Expiring(Inner(L, p), ts))
  {
    forall u | u in ts {
      ReleaseEachKey(L, names, p, ts, refused, u);
    }
    forall q, u | q != p || u !in ts {
      ReleaseEachOtherKey(L, names, p, ts, refused, q, u);
    }
    ReleaseEachCalls(L, names, p, ts, refused);
  }
  /**
   * `destroy_patron` releases each topic of the snapshot once; when no
   * release raised, each topic held with a count of one or less is gone,
   * each with one delete request, and every other key is unchanged.
   */
  lemma ReleaseAllReleasesEachOnce(L: Subscribers, names: Namer, p: PatronId, refused: set<Call>)
    requires WellFormed(L)
    requires !ReleaseAll(L, names, p, refused).raised
    ensures var r := ReleaseAll(L, names, p, refused);
      var snapshot := Inner(L, p).order;
      && (forall t | t in snapshot ::
            (Stored(r.ledger, p, t) <==> Count(L, p, t) > 1) &&
            Count(r.ledger, p, t) == if Count(L, p, t) > 1 then Count(L, p, t) - 1 else 0)
      && (forall q, u | q != p || u !in snapshot ::
            Count(r.ledger, q, u) == Count(L, q, u) && (Stored(r.ledger, q, u) <==> Stored(L, q, u)))
      && r.calls == Deletes(names, p, Expiring(Inner(L, p), snapshot))
  {
    var V := Vivify(L, p);
    assert Inner(V, p) == Inner(L, p);
    assert forall q, u :: Count(V, q, u) == Count(L, q, u);
    assert forall q, u | q != p || u !in Inner(L, p).order :: Stored(V, q, u) <==> Stored(L, q, u);
    DistinctNoRepeats(Inner(L, p).order);
    ReleaseEachReleasesOnce(V, names, p, Inner(L, p).order, refused);
  }

  /**
   * A patron that held each of its N topics once, destroyed while every
   * delete request succeeds: N delete requests, one per topic in snapshot
   * order, and an empty inner dictionary for that patron.
   */
  lemma ReleaseAllEachHeldOnce(L: Subscribers, names: Namer, p: PatronId, refused: set<Call>)
    requires WellFormed(L)
    requires forall t | t in Inner(L, p).counts :: Inner(L, p).counts[t] == 1
    requires forall t | t in Inner(L, p).counts :: DeleteCall(names, p, t) !in refused
    ensures var r := ReleaseAll(L, names, p, refused);
      !r.raised && r.calls == Deletes(names, p, Inner(L, p).order) && r.ledger[p] == NoTopics
  {
    var d := Inner(L, p);
    var V := Vivify(L, p);
    assert d.Valid();
    ReleaseEachSucceeds(V, names, p, d.order, refused);
    ReleaseAllReleasesEachOnce(L, names, p, refused);
    ExpiringAll(d, d.order);
    var r := ReleaseAll(L, names, p, refused);
    ReleaseAllWellFormed(L, names, p, refused);
    forall u ensures u !in r.ledger[p].counts {
      assert !Stored(r.ledger, p, u);
    }
    NothingStored(r.ledger[p]);
  }

  // ---------------------------------------------------------------------
  // Create and delete requests for one key

  /** The host's request on one key: start or stop a patron's interest. */
  datatype Op = Acq | Rel

  /** One host request on (p, t): an acquire or a release. */
  function Apply(L: Subscribers, names: Namer, p: PatronId, t: Topic, op: Op, refused: set<Call>): Step
  {
    if op == Acq then Acquire(L, names, p, t, refused) else Release(L, names, p, t, refused)
  }

  /** A sequence of acquires and releases of (p, t), run one after another. */
  ghost function RunKey(L: Subscribers, names: Namer, p: PatronId, t: Topic, ops: seq<Op>, refused: set<Call>): Step
    decreases |ops|
  {
    if ops == [] then Step(L, [], false)
    else
      var s := Apply(L, names, p, t, ops[0], refused);
      var rest := RunKey(s.ledger, names, p, t, ops[1..], refused);
      Step(rest.ledger, s.calls + rest.calls, s.raised || rest.raised)
  }

  /** Starting from count `c`, no release in `ops` comes without a reference to release. */
  ghost predicate Matched(c: int, ops: seq<Op>)
    decreases |ops|
  {
    ops == [] ||
    (ops[0] == Acq && Matched(c + 1, ops[1..])) ||
    (ops[0] == Rel && c >= 1 && Matched(c - 1, ops[1..]))
  }

  /** `c` plus the acquires minus the releases of `ops`. */
  function Balance(c: int, ops: seq<Op>): int
    decreases |ops|
  {
    if ops == [] then c else Balance(if ops[0] == Acq then c + 1 else c - 1, ops[1..])
  }

  /**
   * `calls` alternate between `create` and `delete`, starting with `delete`
   * iff the subscription is `live` before them, and leave it live iff `after`.
   */
  ghost predicate Alternates(calls: seq<Call>, live: bool, after: bool, create: Call, delete: Call)
    decreases |calls|
  {
    if calls == [] then live == after
    else calls[0] == (if live then delete else create) && Alternates(calls[1..], !live, after, create, delete)
  }

  /**
   * One matched request on a key whose count is in step with its entry: no
   * exception, the count moves by one and stays in step, and a request is
   * made exactly when the count crosses between 0 and 1 (a create upwards,
   * a delete downwards).
   */
  lemma ApplyOne(L: Subscribers, names: Namer, p: PatronId, t: Topic, op: Op, refused: set<Call>)
    requires Count(L, p, t) >= 0 && (Stored(L, p, t) <==> Count(L, p, t) >= 1)
    requires op == Rel ==> Count(L, p, t) >= 1
    requires CreateCall(names, p, t) !in refused && DeleteCall(names, p, t) !in refused
    ensures var s := Apply(L, names, p, t, op, refused);
      var c, live := Count(L, p, t), Count(L, p, t) >= 1;
      && !s.raised
      && Count(s.ledger, p, t) == (if op == Acq then c + 1 else c - 1) >= 0
      && (Stored(s.ledger, p, t) <==> Count(s.ledger, p, t) >= 1)
      && (if (Count(s.ledger, p, t) >= 1) == live then s.calls == []
          else s.calls == [if live then DeleteCall(names, p, t) else CreateCall(names, p, t)])
  {
  }

  /** Prepending the request of a step to alternating requests. */
  lemma AlternatesCons(c: Call, calls: seq<Call>, live: bool, after: bool, create: Call, delete: Call)
    requires c == (if live then delete else create)
    requires Alternates(calls, !live, after, create, delete)
    ensures Alternates([c] + calls, live, after, create, delete)
  {
    assert ([c] + calls)[1..] == calls;
  }

  /**
   * For matched acquires and releases of one key whose requests succeed,
   * create and delete requests strictly alternate: one create on each 0 to 1
   * transition, one delete on each 1 to 0 transition, and the subscription
   * exists afterwards exactly when the final count is positive.
   */
  lemma {:induction false} CreatesAndDeletesAlternate(L: Subscribers, names: Namer, p: PatronId, t: Topic,
                                                      ops: seq<Op>, refused: set<Call>)
    requires Count(L, p, t) >= 0 && (Stored(L, p, t) <==> Count(L, p, t) >= 1)
    requires Matched(Count(L, p, t), ops)
    requires CreateCall(names, p, t) !in refused && DeleteCall(names, p, t) !in refused
    ensures var r := RunKey(L, names, p, t, ops, refused);
      && !r.raised
      && Count(r.ledger, p, t) == Balance(Count(L, p, t), ops) >= 0
      && (Stored(r.ledger, p, t) <==> Count(r.ledger, p, t) >= 1)
      && Alternates(r.calls, Count(L, p, t) >= 1, Count(r.ledger, p, t) >= 1, CreateCall(names, p, t), DeleteCall(names, p, t))
    decreases |ops|
  {
    if ops != [] {
      var create, delete := CreateCall(names, p, t), DeleteCall(names, p, t);
      ApplyOne(L, names, p, t, ops[0], refused);
      var s := Apply(L, names, p, t, ops[0], refused);
      CreatesAndDeletesAlternate(s.ledger, names, p, t, ops[1..], refused);
      var rest := RunKey(s.ledger, names, p, t, ops[1..], refused);
      if s.calls == [] {
        assert s.calls + rest.calls == rest.calls;
      } else {
        AlternatesCons(s.calls[0], rest.calls, Count(L, p, t) >= 1, Count(rest.ledger, p, t) >= 1, create, delete);
        assert s.calls + rest.calls == [s.calls[0]] + rest.calls;
      }
    }
  }
}
