/**
 * The Google Cloud Pub/Sub brew itself: `GoogleCloudPubSubBrew` in brew.py,
 * holding the configured project, the two service clients and the
 * subscription ledger `_topic_subscribers`. Each method updates the ledger
 * and makes its requests step by step, as the source does, and is proved to
 * end in the state the matching function of module Ledger computes.
 *
 * An exception leaving a method is modelled by its `raised` result; the
 * state it leaves behind is the state at the point of the raise.
 */
module PubSubBrew {

  import opened Naming
  import opened Transport
  import opened Ledger

  class GoogleCloudPubSubBrew {
    /** `_gcp_project`. */
    const project: string
    /** `_subscriber`. */
    const subscriber: SubscriberClient
    /** `_publisher`. */
    const publisher: PublisherClient
    /** `_topic_subscribers`. */
    var topicSubscribers: Subscribers

    /** Every inner dictionary's iteration order lists exactly its keys, once each. */
    ghost predicate Valid()
      reads this
    {
      WellFormed(topicSubscribers)
    }

    /** How this brew names a key's resources: `__get_patron_subscriber_details`. */
    function Names(): Namer
    {
      ProjectNames(project)
    }

    constructor (project: string, subscriber: SubscriberClient, publisher: PublisherClient)
      ensures Valid() && topicSubscribers == map[]
      ensures this.project == project && this.subscriber == subscriber && this.publisher == publisher
    {
      this.project := project;
      this.subscriber := subscriber;
      this.publisher := publisher;
      topicSubscribers := map[];
    }

    /**
     * `create_brewer`: create the brewer's topic; an answer that the topic
     * already exists is ignored, any other failure propagates.
     */
    method CreateBrewer(topic: Topic) returns (raised: bool)
      modifies publisher`topics
      ensures var path := TopicPath(project, topic);
        && raised == (CreateTopicReply(old(publisher.topics), publisher.rejected, path) == Failed)
        && publisher.topics == old(publisher.topics) + (if raised then {} else {path})
        && (!raised ==> path in publisher.topics)
        && (!raised ==> CreateTopicReply(publisher.topics, publisher.rejected, path) == AlreadyExists)
    {
      var reply := publisher.CreateTopic(TopicPath(project, topic));
      raised := reply == Failed;
    }

    /** `__create_subscription`. */
    method CreateSubscription(patron: PatronId, topic: Topic) returns (raised: bool)
      requires Valid()
      modifies this`topicSubscribers, subscriber`log
      ensures Valid()
      ensures var r := Acquire(old(topicSubscribers), Names(), patron, topic, subscriber.refused);
        topicSubscribers == r.ledger && subscriber.log == old(subscriber.log) + r.calls && raised == r.raised
    {
      AcquireWellFormed(topicSubscribers, Names(), patron, topic, subscriber.refused);
      var n := Count(topicSubscribers, patron, topic) + 1;
      topicSubscribers := topicSubscribers[patron := Inner(topicSubscribers, patron).Set(topic, n)];
      raised := false;
      if Count(topicSubscribers, patron, topic) == 1 {
        var (subPath, topicPath) := Details(project, patron, topic);
        var ok := subscriber.CreateSubscription(subPath, topicPath);
        raised := !ok;
      }
    }

    /** `__remove_subscription`. */
    method RemoveSubscription(patron: PatronId, topic: Topic) returns (raised: bool)
      requires Valid()
      modifies this`topicSubscribers, subscriber`log
      ensures Valid()
      ensures var r := Release(old(topicSubscribers), Names(), patron, topic, subscriber.refused);
        topicSubscribers == r.ledger && subscriber.log == old(subscriber.log) + r.calls && raised == r.raised
    {
      ReleaseWellFormed(topicSubscribers, Names(), patron, topic, subscriber.refused);
      var n := Count(topicSubscribers, patron, topic) - 1;
      topicSubscribers := topicSubscribers[patron := Inner(topicSubscribers, patron).Set(topic, n)];
      raised := false;
      if Count(topicSubscribers, patron, topic) <= 0 {
        var (subPath, _) := Details(project, patron, topic);
        var ok := subscriber.DeleteSubscription(subPath);
        if !ok {
          raised := true;
          return;
        }
        topicSubscribers := topicSubscribers[patron := topicSubscribers[patron].Remove(topic)];
      }
    }

    /**
     * `destroy_patron`: release each topic of a copy of the patron's inner
     * dictionary once, in its order; an exception stops the loop.
     */
    method DestroyPatron(patron: PatronId) returns (raised: bool)
      requires Valid()
      modifies this`topicSubscribers, subscriber`log
      ensures Valid()
      ensures var r := ReleaseAll(old(topicSubscribers), Names(), patron, subscriber.refused);
        topicSubscribers == r.ledger && subscriber.log == old(subscriber.log) + r.calls && raised == r.raised
    {
      ghost var log0, refused, names := subscriber.log, subscriber.refused, Names();
      assert WellFormed(Vivify(topicSubscribers, patron)) by {
        assert Inner(topicSubscribers, patron).Valid();
      }
      topicSubscribers := Vivify(topicSubscribers, patron);
      ghost var V := topicSubscribers;
      var snapshot := topicSubscribers[patron].order;
      var i := 0;
      raised := false;
      while i < |snapshot| && !raised
        invariant 0 <= i <= |snapshot|
        invariant Valid() && subscriber.refused == refused
        invariant var s := ReleaseEach(V, names, patron, snapshot[..i], refused);
          topicSubscribers == s.ledger && subscriber.log == log0 + s.calls && raised == s.raised
      {
        ghost var s := ReleaseEach(V, names, patron, snapshot[..i], refused);
        raised := RemoveSubscription(patron, snapshot[i]);
        ghost var last := Release(s.ledger, names, patron, snapshot[i], refused);
        ReleaseEachStep(V, names, patron, snapshot, i, refused);
        CallsAssociate(log0, s.calls, last.calls);
        i := i + 1;
      }
      assert ReleaseEach(V, names, patron, snapshot, refused) == ReleaseEach(V, names, patron, snapshot[..i], refused) by {
        if raised {
          RaisedReleaseStops(V, names, patron, snapshot, i, refused);
        } else {
          assert snapshot[..i] == snapshot;
        }
      }
    }

    /**
     * `start_patron`: acquire the key; if that raised, the exception is
     * logged and swallowed; otherwise register the handler forwarding the
     * key's messages to `brewer`.
     */
    method StartPatron(patron: PatronId, topic: Topic, brewer: string) returns (raised: bool)
      requires Valid()
      modifies this`topicSubscribers, subscriber`log
      ensures Valid()
      ensures var r := Ledger.StartPatron(old(topicSubscribers), Names(), patron, topic, brewer, subscriber.refused);
        topicSubscribers == r.ledger && subscriber.log == old(subscriber.log) + r.calls && raised == r.raised
    {
      var failed := CreateSubscription(patron, topic);
      if failed {
        return false;
      }
      var (subPath, _) := Details(project, patron, topic);
      var ok := subscriber.Subscribe(subPath, brewer);
      raised := !ok;
    }

    /** `stop_patron`. */
    method StopPatron(patron: PatronId, topic: Topic) returns (raised: bool)
      requires Valid()
      modifies this`topicSubscribers, subscriber`log
      ensures Valid()
      ensures var r := Release(old(topicSubscribers), Names(), patron, topic, subscriber.refused);
        topicSubscribers == r.ledger && subscriber.log == old(subscriber.log) + r.calls && raised == r.raised
    {
      raised := RemoveSubscription(patron, topic);
    }
  }
}
