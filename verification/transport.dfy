/**
 * The two client objects of the external pub/sub service that the brew talks
 * to. The service itself is not modelled: a subscriber client records every
 * request it is asked to make, and the requests it answers with an error are
 * given by the set `refused`; a publisher client keeps the set of topics that
 * exist, and the topic paths it rejects (an invalid name, say).
 */
module Transport {

  /** A request made on the subscriber client. */
  datatype Call =
    | CreateSubscription(name: string, topic: string)
    | DeleteSubscription(name: string)
    | Subscribe(name: string, brewer: string)

  class SubscriberClient {
    /** Every request made so far, in order, whether or not it succeeded. */
    ghost var log: seq<Call>
    /** The requests the service answers with an exception. */
    var refused: set<Call>

    constructor (refused: set<Call>)
      ensures log == [] && this.refused == refused
    {
      log := [];
      this.refused := refused;
    }

    method CreateSubscription(name: string, topic: string) returns (ok: bool)
      modifies this`log
      ensures log == old(log) + [Call.CreateSubscription(name, topic)]
      ensures ok <==> Call.CreateSubscription(name, topic) !in refused
    {
      log := log + [Call.CreateSubscription(name, topic)];
      ok := Call.CreateSubscription(name, topic) !in refused;
    }

    method DeleteSubscription(name: string) returns (ok: bool)
      modifies this`log
      ensures log == old(log) + [Call.DeleteSubscription(name)]
      ensures ok <==> Call.DeleteSubscription(name) !in refused
    {
      log := log + [Call.DeleteSubscription(name)];
      ok := Call.DeleteSubscription(name) !in refused;
    }

    /** Registers the message handler that forwards deliveries to `brewer`. */
    method Subscribe(name: string, brewer: string) returns (ok: bool)
      modifies this`log
      ensures log == old(log) + [Call.Subscribe(name, brewer)]
      ensures ok <==> Call.Subscribe(name, brewer) !in refused
    {
      log := log + [Call.Subscribe(name, brewer)];
      ok := Call.Subscribe(name, brewer) !in refused;
    }
  }

  /** The service's answer to a create-topic request. */
  datatype TopicReply = Created | AlreadyExists | Failed

  /** The answer to creating `path` when `existing` topics exist and `rejected` paths are refused. */
  function CreateTopicReply(existing: set<string>, rejected: set<string>, path: string): (r: TopicReply)
    ensures r == Failed <==> path in rejected
    ensures r == AlreadyExists <==> path !in rejected && path in existing
    ensures r == Created <==> path !in rejected && path !in existing
  {
    if path in rejected then Failed
    else if path in existing then AlreadyExists
    else Created
  }

  /**
   * Once a topic exists, asking to create it again is answered "already
   * exists" exactly when its path is not rejected: a repeated creation of a
   * topic that was created or found does not fail.
   */
  lemma CreateAgainAlreadyExists(existing: set<string>, rejected: set<string>, path: string)
    ensures CreateTopicReply(existing + {path}, rejected, path) == AlreadyExists <==> path !in rejected
    ensures CreateTopicReply(existing, rejected, path) != Failed ==>
              CreateTopicReply(existing + {path}, rejected, path) == AlreadyExists
  {
  }

  class PublisherClient {
    /** The topics that exist in the service. */
    var topics: set<string>
    /** The topic paths the service refuses to create. */
    var rejected: set<string>

    constructor (topics: set<string>, rejected: set<string>)
      ensures this.topics == topics && this.rejected == rejected
    {
      this.topics := topics;
      this.rejected := rejected;
    }

    method CreateTopic(path: string) returns (reply: TopicReply)
      modifies this`topics
      ensures reply == CreateTopicReply(old(topics), rejected, path)
      ensures topics == if reply.Created? then old(topics) + {path} else old(topics)
    {
      reply := CreateTopicReply(topics, rejected, path);
      if reply.Created? {
        topics := topics + {path};
      }
    }
  }
}
