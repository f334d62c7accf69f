/**
 * The subscription ledger of the Google Cloud Pub/Sub brew, as values:
 * `_topic_subscribers`, a dictionary from patron id to a dictionary from
 * topic to reference count, and the effect of each ledger operation on it and
 * on the subscriber client. The brew's methods are proved to follow these
 * functions; the properties of the functions are proved beside them.
 */
module Ledger {

  import opened Naming
  import opened Transport

  ghost predicate Distinct(s: seq<Topic>)
  {
    forall i, j | 0 <= i < j < |s| :: s[i] != s[j]
  }

  /** `s` with `t` taken out, the others kept in their order. */
  function Without(s: seq<Topic>, t: Topic): (r: seq<Topic>)
    ensures forall u :: u in r <==> u in s && u != t
  {
    if s == [] then []
    else
      var rest := Without(s[1..], t);
      if s[0] == t then rest else [s[0]] + rest
  }

  lemma {:induction false} WithoutDistinct(s: seq<Topic>, t: Topic)
    requires Distinct(s)
    ensures Distinct(Without(s, t))
  {
    if s != [] {
      assert Distinct(s[1..]) && s[0] !in s[1..];
      WithoutDistinct(s[1..], t);
    }
  }

  lemma {:induction false} WithoutAbsent(s: seq<Topic>, t: Topic)
    requires t !in s
    ensures Without(s, t) == s
  {
    if s != [] {
      WithoutAbsent(s[1..], t);
    }
  }

  /** Taking out the key at place `k` of a list without repeats closes the gap, keeping the others in order. */
  lemma {:induction false} WithoutAt(s: seq<Topic>, k: nat)
    requires Distinct(s) && k < |s|
    ensures Without(s, s[k]) == s[..k] + s[k + 1..]
  {
    if k == 0 {
      assert s[0] !in s[1..];
      WithoutAbsent(s[1..], s[0]);
    } else {
      assert s[0] != s[k] && Distinct(s[1..]);
      WithoutAt(s[1..], k - 1);
      assert s[1..][..k - 1] == s[1..k] && s[1..][k..] == s[k + 1..];
      assert s[..k] == [s[0]] + s[1..k];
    }
  }

  /** Taking out a key that was just appended gives the order back. */
  lemma {:induction false} WithoutAppended(s: seq<Topic>, t: Topic)
    requires t !in s
    ensures Without(s + [t], t) == s
  {
    if s == [] {
      assert [t][1..] == [];
    } else {
      assert (s + [t])[1..] == s[1..] + [t];
      WithoutAppended(s[1..], t);
    }
  }

  /**
   * One patron's inner dictionary: the topics in insertion order, as a Python
   * dict iterates them, and the count of each.
   */
  datatype TopicCounts = TopicCounts(order: seq<Topic>, counts: map<Topic, int>)
  {
    ghost predicate Valid()
    {
      Distinct(order) && forall u :: u in order <==> u in counts
    }

    /** A read of the defaulted dictionary: an absent topic counts 0. */
    function Get(t: Topic): int
    {
      if t in counts then counts[t] else 0
    }

    /** `d[t] = n`: a stored topic keeps its place, a new one goes last. */
    function Set(t: Topic, n: int): (d: TopicCounts)
      ensures t in d.counts && d.Get(t) == n
      ensures forall u | u != t :: (u in d.counts <==> u in counts) && d.Get(u) == Get(u)
      ensures t in counts ==> d.order == order
      ensures t !in counts ==> d.order == order + [t]
    {
      if t in counts then TopicCounts(order, counts[t := n])
      else TopicCounts(order + [t], counts[t := n])
    }

    /** `del d[t]`. */
    function Remove(t: Topic): (d: TopicCounts)
      ensures t !in d.counts
      ensures forall u | u != t :: (u in d.counts <==> u in counts) && d.Get(u) == Get(u)
    {
      TopicCounts(Without(order, t), counts - {t})
    }

    lemma SetValid(t: Topic, n: int)
      requires Valid()
      ensures Set(t, n).Valid()
    {
    }

    /** `del d[t]` keeps the remaining topics in their iteration order. */
    lemma RemoveOrder(k: nat)
      requires Valid() && k < |order|
      ensures Remove(order[k]).order == order[..k] + order[k + 1..]
    {
      WithoutAt(order, k);
    }

    lemma RemoveValid(t: Topic)
      requires Valid()
      ensures Remove(t).Valid()
    {
      WithoutDistinct(order, t);
    }
  }

  const NoTopics := TopicCounts([], map[])

  /** An inner dictionary with no keys is the empty one. */
  lemma NothingStored(d: TopicCounts)
    requires d.Valid() && forall u :: u !in d.counts
    ensures d == NoTopics
  {
    forall u ensures multiset(d.order)[u] == 0 {
      assert u !in d.order;
    }
    assert multiset(d.order) == multiset{};
    assert d.counts == map[];
  }

  /** `_topic_subscribers`: patron id to that patron's topic counts. */
  type Subscribers = map<PatronId, TopicCounts>

  ghost predicate WellFormed(L: Subscribers)
  {
    forall p | p in L :: L[p].Valid()
  }

  /** `_topic_subscribers[p]` read through the default factory. */
  function Inner(L: Subscribers, p: PatronId): TopicCounts
  {
    if p in L then L[p] else NoTopics
  }

  /** `_topic_subscribers[p]` after the read has auto-created an empty entry. */
  function Vivify(L: Subscribers, p: PatronId): Subscribers
  {
    L[p := Inner(L, p)]
  }

  function Count(L: Subscribers, p: PatronId, t: Topic): int
  {
    Inner(L, p).Get(t)
  }

  /** The ledger holds an entry (of any count) for `t` under `p`. */
  predicate Stored(L: Subscribers, p: PatronId, t: Topic)
  {
    p in L && t in L[p].counts
  }

  /**
   * Every stored count is at least one: the invariant the reference count is
   * meant to keep, and which a refused delete breaks (`FailedDeleteLeavesEntry`).
   */
  ghost predicate Positive(L: Subscribers)
  {
    forall p, t | Stored(L, p, t) :: L[p].counts[t] >= 1
  }

  /** The request that creates the subscription of (p, t). */
  function CreateCall(names: Namer, p: PatronId, t: Topic): Call
  {
    var (sub, topic) := names(p, t);
    CreateSubscription(sub, topic)
  }

  /** The request that deletes the subscription of (p, t). */
  function DeleteCall(names: Namer, p: PatronId, t: Topic): Call
  {
    var (sub, _) := names(p, t);
    DeleteSubscription(sub)
  }

  /** The request that registers a handler forwarding (p, t)'s messages to `brewer`. */
  function SubscribeCall(names: Namer, p: PatronId, t: Topic, brewer: string): Call
  {
    var (sub, _) := names(p, t);
    Subscribe(sub, brewer)
  }

  /**
   * What one operation does: the ledger afterwards, the requests made on the
   * subscriber client in order, and whether an exception left the operation.
   */
  datatype Step = Step(ledger: Subscribers, calls: seq<Call>, raised: bool)

  /**
   * Sequence associativity, for requests logged one step after another; a
   * verifier aid for the loop in `destroy_patron`, stating nothing about the brew.
   */
  lemma CallsAssociate(log: seq<Call>, first: seq<Call>, next: seq<Call>)
    ensures log + first + next == log + (first + next)
  {
  }

  /**
   * `__create_subscription`: count one more reference to (p, t), and create
   * the subscription when the count has just become 1. The increment stays
   * when the create request raises.
   */
  function Acquire(L: Subscribers, names: Namer, p: PatronId, t: Topic, refused: set<Call>): (r: Step)
    ensures r.ledger.Keys == L.Keys + {p}
    ensures Stored(r.ledger, p, t) && Count(r.ledger, p, t) == Count(L, p, t) + 1
    ensures forall q, u | q != p || u != t ::
              Count(r.ledger, q, u) == Count(L, q, u) && (Stored(r.ledger, q, u) <==> Stored(L, q, u))
    ensures Count(r.ledger, p, t) == 1 ==> r.calls == [CreateCall(names, p, t)]
    ensures Count(r.ledger, p, t) != 1 ==> r.calls == []
    ensures r.raised <==> Count(r.ledger, p, t) == 1 && CreateCall(names, p, t) in refused
  {
    var n := Count(L, p, t) + 1;
    var ledger := L[p := Inner(L, p).Set(t, n)];
    if n == 1 then
      var c := CreateCall(names, p, t);
      Step(ledger, [c], c in refused)
    else
      Step(ledger, [], false)
  }

  /**
   * `__remove_subscription`: count one reference less to (p, t); once the
   * count is at most 0, delete the subscription and then the entry. When the
   * delete request raises, the entry stays with its decremented count.
   */
  function Release(L: Subscribers, names: Namer, p: PatronId, t: Topic, refused: set<Call>): (r: Step)
    ensures r.ledger.Keys == L.Keys + {p}
    ensures forall q, u | q != p || u != t ::
              Count(r.ledger, q, u) == Count(L, q, u) && (Stored(r.ledger, q, u) <==> Stored(L, q, u))
    ensures Count(L, p, t) > 1 ==>
              Stored(r.ledger, p, t) && Count(r.ledger, p, t) == Count(L, p, t) - 1 && r.calls == [] && !r.raised
    ensures Count(L, p, t) <= 1 ==>
              r.calls == [DeleteCall(names, p, t)] && (r.raised <==> DeleteCall(names, p, t) in refused)
    ensures Count(L, p, t) <= 1 && !r.raised ==> !Stored(r.ledger, p, t)
    ensures r.raised ==> Stored(r.ledger, p, t) && Count(r.ledger, p, t) == Count(L, p, t) - 1
  {
    var n := Count(L, p, t) - 1;
    var ledger := L[p := Inner(L, p).Set(t, n)];
    if n <= 0 then
      var c := DeleteCall(names, p, t);
      if c in refused then Step(ledger, [c], true)
      else Step(ledger[p := ledger[p].Remove(t)], [c], false)
    else
      Step(ledger, [], false)
  }

  /**
   * Releases each topic of `ts` once, in order, and stops at the first
   * release that raises. Defined from the last topic back, as a loop over
   * `ts` runs.
   */
  function ReleaseEach(L: Subscribers, names: Namer, p: PatronId, ts: seq<Topic>, refused: set<Call>): (r: Step)
    ensures r.ledger.Keys == L.Keys + (if ts == [] then {} else {p})
    ensures forall q | q in L && q != p :: r.ledger[q] == L[q]
    decreases |ts|
  {
    if ts == [] then Step(L, [], false)
    else
      var s := ReleaseEach(L, names, p, ts[..|ts| - 1], refused);
      if s.raised then s
      else
        var last := Release(s.ledger, names, p, ts[|ts| - 1], refused);
        Step(last.ledger, s.calls + last.calls, last.raised)
  }

  /** Once a release in the loop has raised, the later topics are not touched. */
  lemma {:induction false} RaisedReleaseStops(L: Subscribers, names: Namer, p: PatronId, ts: seq<Topic>, i: nat, refused: set<Call>)
    requires i <= |ts|
    requires ReleaseEach(L, names, p, ts[..i], refused).raised
    ensures ReleaseEach(L, names, p, ts, refused) == ReleaseEach(L, names, p, ts[..i], refused)
    decreases |ts|
  {
    if i < |ts| {
      var init := ts[..|ts| - 1];
      assert init[..i] == ts[..i];
      RaisedReleaseStops(L, names, p, init, i, refused);
    } else {
      assert ts[..i] == ts;
    }
  }

  /** One more turn of the loop over `ts`: the release of `ts[i]`. */
  lemma ReleaseEachStep(L: Subscribers, names: Namer, p: PatronId, ts: seq<Topic>, i: nat, refused: set<Call>)
    requires i < |ts|
    requires !ReleaseEach(L, names, p, ts[..i], refused).raised
    ensures var s := ReleaseEach(L, names, p, ts[..i], refused);
      var last := Release(s.ledger, names, p, ts[i], refused);
      ReleaseEach(L, names, p, ts[..i + 1], refused) == Step(last.ledger, s.calls + last.calls, last.raised)
  {
    assert ts[..i + 1][..i] == ts[..i];
  }

  /**
   * `destroy_patron`: read the patron's inner dictionary (creating it if
   * absent) and release each topic of a copy of it once.
   */
  function ReleaseAll(L: Subscribers, names: Namer, p: PatronId, refused: set<Call>): (r: Step)
    ensures r.ledger.Keys == L.Keys + {p}
    ensures forall q | q in L && q != p :: r.ledger[q] == L[q]
  {
    var V := Vivify(L, p);
    assert V.Keys == L.Keys + {p};
    assert forall q | q in L && q != p :: V[q] == L[q];
    ReleaseEach(V, names, p, Inner(L, p).order, refused)
  }

  /**
   * `start_patron`: acquire (p, t); if that raised, the exception is logged
   * and nothing else happens; otherwise register the handler, whose own
   * failure is not caught.
   */
  function StartPatron(L: Subscribers, names: Namer, p: PatronId, t: Topic, brewer: string, refused: set<Call>): (r: Step)
    ensures r.ledger.Keys == L.Keys + {p}
    ensures Stored(r.ledger, p, t) && Count(r.ledger, p, t) == Count(L, p, t) + 1
    ensures forall q, u | q != p || u != t ::
              Count(r.ledger, q, u) == Count(L, q, u) && (Stored(r.ledger, q, u) <==> Stored(L, q, u))
    ensures Count(L, p, t) == 0 && CreateCall(names, p, t) in refused ==>
              !r.raised && r.calls == [CreateCall(names, p, t)]
    ensures !(Count(L, p, t) == 0 && CreateCall(names, p, t) in refused) ==>
              && r.calls == (if Count(L, p, t) == 0 then [CreateCall(names, p, t)] else []) + [SubscribeCall(names, p, t, brewer)]
              && (r.raised <==> SubscribeCall(names, p, t, brewer) in refused)
  {
    var a := Acquire(L, names, p, t, refused);
    if a.raised then Step(a.ledger, a.calls, false)
    else
      var c := SubscribeCall(names, p, t, brewer);
      Step(a.ledger, a.calls + [c], c in refused)
  }

  // ---------------------------------------------------------------------
  // Every operation keeps each inner dictionary's order and keys in step

  lemma AcquireWellFormed(L: Subscribers, names: Namer, p: PatronId, t: Topic, refused: set<Call>)
    requires WellFormed(L)
    ensures WellFormed(Acquire(L, names, p, t, refused).ledger)
  {
  }

  lemma ReleaseWellFormed(L: Subscribers, names: Namer, p: PatronId, t: Topic, refused: set<Call>)
    requires WellFormed(L)
    ensures WellFormed(Release(L, names, p, t, refused).ledger)
  {
    var d := Inner(L, p);
    assert d.Valid();
    d.SetValid(t, Count(L, p, t) - 1);
    d.Set(t, Count(L, p, t) - 1).RemoveValid(t);
  }

  lemma {:induction false} ReleaseEachWellFormed(L: Subscribers, names: Namer, p: PatronId, ts: seq<Topic>, refused: set<Call>)
    requires WellFormed(L)
    ensures WellFormed(ReleaseEach(L, names, p, ts, refused).ledger)
    decreases |ts|
  {
    if ts != [] {
      var s := ReleaseEach(L, names, p, ts[..|ts| - 1], refused);
      ReleaseEachWellFormed(L, names, p, ts[..|ts| - 1], refused);
      ReleaseWellFormed(s.ledger, names, p, ts[|ts| - 1], refused);
    }
  }

  lemma ReleaseAllWellFormed(L: Subscribers, names: Namer, p: PatronId, refused: set<Call>)
    requires WellFormed(L)
    ensures WellFormed(ReleaseAll(L, names, p, refused).ledger)
  {
    ReleaseEachWellFormed(Vivify(L, p), names, p, Inner(L, p).order, refused);
  }

  lemma StartPatronWellFormed(L: Subscribers, names: Namer, p: PatronId, t: Topic, brewer: string, refused: set<Call>)
    requires WellFormed(L)
    ensures WellFormed(StartPatron(L, names, p, t, brewer, refused).ledger)
  {
  }
}
