# Google Cloud Pub/Sub brew: subscription ledger

A Dafny model of the core of pubkeeper's Google Cloud Pub/Sub brew,
`GoogleCloudPubSubBrew`. A patron asks for the messages of a topic. The brew
keeps one subscription in the cloud service for each (patron id, topic) key.
It counts, in `_topic_subscribers`, the starts of each key not yet matched by
a stop or a destroy; a release of a key that is not held drives the count
below 0. It creates the subscription when that count becomes 1. It deletes
the subscription once the count falls to 0 or below. The model also covers how
subscription names are derived, how a patron is destroyed, the start and stop
hooks, and topic creation for a brewer, where "already exists" is accepted.

Modules:

- `Naming` (naming.dfy) covers `__get_patron_subscriber_details`:
  - the short name `sub.<patron_id>.<topic>`;
  - the client library's resource-path templates;
  - reading a short name back into its key.
- `Transport` (transport.dfy) is the service clients as seen by the brew:
  - a subscriber client that logs every request in a ghost `log` and raises
    on the requests in its set `refused`;
  - a publisher client holding the set of existing topics and the topic paths
    it rejects.
- `Ledger` (ledger.dfy) is the ledger as values:
  - a patron's inner dictionary is `TopicCounts`, its keys in insertion order
    (the order a Python dict iterates in) plus a count per key;
  - each brew operation is a function from the old ledger to a `Step`, which
    holds the new ledger, the requests made in order, and whether an
    exception left the operation;
  - a read of an absent key acts as Python's `defaultdict` does: it reads 0,
    and the increment or decrement then stores the key.
- `LedgerProperties` (ledger_properties.dfy) proves what these operations
  promise, alone and in sequence.
- `PubSubBrew` (brew.dfy) is the class itself:
  - the ledger is a field that the methods update step by step, as the source
    does;
  - `destroy_patron` is a loop over a snapshot of the patron's topics;
  - each method is proved to reach the state, log and outcome that the
    matching `Ledger` function gives;
  - each method keeps the class invariant: every inner dictionary's order
    lists exactly its keys, once each.

A raised exception is modelled as a `raised` result. The state it leaves is
the state at the point where the exception was raised, as in the source.

## Model

| member | source | states |
|---|---|---|
| Naming.SubscriptionName | src/pubkeeper/brew/google_cloud_pubsub/brew.py:112 | The short name is the four characters `sub.`, then the patron id, then one `.`, then the topic, and nothing else. |
| Naming.Details | src/pubkeeper/brew/google_cloud_pubsub/brew.py:108-113 | The pair is the subscription path of the short name and the topic path; the topic path depends on the topic alone, and the two paths never coincide. |
| Naming.ParseInvertsName | src/pubkeeper/brew/google_cloud_pubsub/brew.py:108-113 | The short name `sub.<patron>.<topic>` reads back to (patron, topic) when the patron id has no dot. |
| Naming.SubscriptionNameInjective | src/pubkeeper/brew/google_cloud_pubsub/brew.py:111-112 | Keys with dot-free patron ids never share a short subscription name. |
| Naming.DottedPatronsCollide | src/pubkeeper/brew/google_cloud_pubsub/brew.py:111-112 | The name is not injective in general: ("a.b", "c") and ("a", "b.c") get the same name. |
| Naming.TopicPathInjective | src/pubkeeper/brew/google_cloud_pubsub/brew.py:113 | Within one project, the topic path determines the topic. |
| Naming.SubscriptionPathInjective | src/pubkeeper/brew/google_cloud_pubsub/brew.py:111-112 | Within one project, the subscription path determines the short name. |
| Naming.ShortNameSameTopic | src/pubkeeper/brew/google_cloud_pubsub/brew.py:112 | On one topic, the short name determines the patron id, dots included. |
| Naming.SameTopicPathsDiffer | src/pubkeeper/brew/google_cloud_pubsub/brew.py:108-113 | On one topic, two patrons share a subscription path only if they are the same patron. |
| Naming.DetailsDistinguishKeys | src/pubkeeper/brew/google_cloud_pubsub/brew.py:108-113 | The topic path depends on the topic only. Two keys with dot-free patron ids share a subscription path only if they are the same key. |
| Transport.CreateAgainAlreadyExists | src/pubkeeper/brew/google_cloud_pubsub/brew.py:46-51 | Creating a topic that already exists is answered "already exists" exactly when its path is not rejected, so a creation that did not fail can be repeated without failing. |
| Transport.PublisherClient.CreateTopic | src/pubkeeper/brew/google_cloud_pubsub/brew.py:46-47 | The request answers as `CreateTopicReply` says, and the topic set grows by the path only when it was created. |
| Ledger.TopicCounts.Set | src/pubkeeper/brew/google_cloud_pubsub/brew.py:86 | Assigning to a dict key stores that key with the new count and leaves the other keys alone. A stored key keeps its place in the order; a new key goes last. |
| Ledger.TopicCounts.Remove | src/pubkeeper/brew/google_cloud_pubsub/brew.py:106 | `del` takes out exactly the given key and leaves the other keys and counts alone. |
| Ledger.TopicCounts.RemoveOrder | src/pubkeeper/brew/google_cloud_pubsub/brew.py:106 | `del` of the key at place k of the iteration order closes the gap: the other keys keep their relative order. |
| Ledger.WithoutAt | src/pubkeeper/brew/google_cloud_pubsub/brew.py:106 | Taking the element at place k out of a list without repeats leaves the elements before it, then the elements after it. |
| Ledger.Acquire | src/pubkeeper/brew/google_cloud_pubsub/brew.py:84-93 | The count of exactly (p, t) goes up by one, from 0 when absent; every other key is unchanged. A create request for the key's subscription and topic paths is made iff the new count is 1. An exception is raised iff that request is refused, and the increment stays. |
| Ledger.Release | src/pubkeeper/brew/google_cloud_pubsub/brew.py:95-106 | The count of (p, t) goes down by one; every other key is unchanged. Above 1 before, the key stays and nothing is requested. At 1 or below, exactly one delete request is made. If the delete succeeds the key is removed; if it raises, the key stays with the decremented count. |
| Ledger.ReleaseEach | src/pubkeeper/brew/google_cloud_pubsub/brew.py:61-62 | Releasing the topics of a list, in order, touches only that patron's entry, and adds that entry when the list is not empty. |
| Ledger.ReleaseAll | src/pubkeeper/brew/google_cloud_pubsub/brew.py:57-62 | Destroying a patron creates that patron's entry if absent and leaves every other patron's entry unchanged. |
| Ledger.RaisedReleaseStops | src/pubkeeper/brew/google_cloud_pubsub/brew.py:61-62 | Once one release in the loop raises, the loop stops: the later topics are not released. |
| Ledger.AcquireWellFormed | src/pubkeeper/brew/google_cloud_pubsub/brew.py:86 | An acquire keeps each inner dict's order in step with its keys. |
| Ledger.ReleaseWellFormed | src/pubkeeper/brew/google_cloud_pubsub/brew.py:97-106 | A release keeps each inner dict's order in step with its keys, including after `del`. |
| Ledger.ReleaseEachWellFormed | src/pubkeeper/brew/google_cloud_pubsub/brew.py:61-62 | The release loop keeps each inner dict's order in step with its keys. |
| Ledger.ReleaseAllWellFormed | src/pubkeeper/brew/google_cloud_pubsub/brew.py:57-62 | Destroying a patron keeps each inner dict's order in step with its keys. |
| Ledger.StartPatronWellFormed | src/pubkeeper/brew/google_cloud_pubsub/brew.py:64-79 | Starting a patron keeps each inner dict's order in step with its keys. |
| LedgerProperties.AcquireKeepsPositive | src/pubkeeper/brew/google_cloud_pubsub/brew.py:86 | If every stored count is at least 1 before an acquire, the same holds after it. |
| LedgerProperties.ReleaseKeepsPositive | src/pubkeeper/brew/google_cloud_pubsub/brew.py:97-106 | After a release that did not raise, every stored count is still at least 1: a count that reached 0 or below was removed. |
| LedgerProperties.FailedDeleteLeavesEntry | src/pubkeeper/brew/google_cloud_pubsub/brew.py:104-106 | When the delete raises, the exception propagates, the key stays stored with a count of 0 or less, and "every stored count is positive" no longer holds. |
| LedgerProperties.SpuriousReleaseDeletes | src/pubkeeper/brew/google_cloud_pubsub/brew.py:97-106 | Releasing a key that is not held still makes a delete request. When that request succeeds, the ledger is as before, apart from the patron's auto-created entry. |
| LedgerProperties.AcquireThenReleaseRestores | src/pubkeeper/brew/google_cloud_pubsub/brew.py:86-106 | For a key that is absent or stored with a count of 1 or more, an acquire then a release give the ledger back. From an absent key the requests are exactly one create then one delete (which must succeed); from a held key there are none, whatever the service would answer. |
| LedgerProperties.AcquireThenReleaseFromZero | src/pubkeeper/brew/google_cloud_pubsub/brew.py:86-106 | A key left stored at count 0 (by a refused delete) is not given back: the acquire makes a fresh create request, and the release's delete then removes the key, so the ledger differs from before. |
| LedgerProperties.SharedKeyScenario | src/pubkeeper/brew/google_cloud_pubsub/brew.py:84-106 | Two acquires then two releases of one key: the counts are 1, 2, 1, 0; one create request, then one delete request; the ledger ends as it began. |
| LedgerProperties.TwoPatronsTwoSubscriptions | src/pubkeeper/brew/google_cloud_pubsub/brew.py:86-113 | Two different patrons on the same topic, whatever characters their ids hold, cause two create requests, for two different subscription paths. |
| Ledger.StartPatron | src/pubkeeper/brew/google_cloud_pubsub/brew.py:64-79 | Start counts one more reference to the key in every case, and leaves every other key's count and presence, and the set of patrons apart from adding p, unchanged. When the first reference's create request raises, the exception is swallowed and no handler is registered. Otherwise the requests are the create (first reference only) then the handler registration, and only the registration's failure propagates. |
| LedgerProperties.FailedStartRegistersNoHandler | src/pubkeeper/brew/google_cloud_pubsub/brew.py:66-72 | When the create request raises, start swallows the exception and registers no handler. The count of 1 is not rolled back. |
| LedgerProperties.StartAfterFailedStartSkipsCreate | src/pubkeeper/brew/google_cloud_pubsub/brew.py:64-93 | After a failed start, the next start of that key makes no create request. It registers a handler on a subscription that was never created, and the count becomes 2. |
| LedgerProperties.ExpiringAll | src/pubkeeper/brew/google_cloud_pubsub/brew.py:98 | When every topic of a list has a count of 1 or less, each of them is among the ones a release deletes. |
| LedgerProperties.DistinctNoRepeats | src/pubkeeper/brew/google_cloud_pubsub/brew.py:60-61 | A duplicate-free list, as a dict's key list is, repeats no topic when read from its end, the order the loop proofs follow. |
| LedgerProperties.ReleaseEachSucceeds | src/pubkeeper/brew/google_cloud_pubsub/brew.py:61-62 | When none of the list's delete requests is refused, the loop runs to the end without raising. |
| LedgerProperties.ReleaseEachOtherKey | src/pubkeeper/brew/google_cloud_pubsub/brew.py:61-62 | A loop that did not raise leaves every key outside the list unchanged, for this patron and all others. |
| LedgerProperties.ReleaseOwnKey | src/pubkeeper/brew/google_cloud_pubsub/brew.py:97-106 | After a release that did not raise, the key is stored iff its count was above 1, and its count is one less or 0. |
| LedgerProperties.ReleaseOtherKey | src/pubkeeper/brew/google_cloud_pubsub/brew.py:97-106 | A release leaves the count and presence of every other key unchanged. |
| LedgerProperties.ReleaseEachKey | src/pubkeeper/brew/google_cloud_pubsub/brew.py:61-62 | A loop over a duplicate-free list that did not raise releases each listed topic exactly once. |
| LedgerProperties.ReleaseEachCalls | src/pubkeeper/brew/google_cloud_pubsub/brew.py:61-62 | The requests of such a loop are one delete per listed topic whose count was 1 or less, in list order. |
| LedgerProperties.ReleaseEachReleasesOnce | src/pubkeeper/brew/google_cloud_pubsub/brew.py:61-62 | All three facts about the loop: each listed topic released once, every other key unchanged, the deletes in order. |
| LedgerProperties.ReleaseAllReleasesEachOnce | src/pubkeeper/brew/google_cloud_pubsub/brew.py:57-62 | When no delete request raises, destroying a patron releases each topic of the snapshot exactly once. A count above 1 goes down by one; every other snapshot topic is removed, with one delete each, in snapshot order. All other keys are untouched. |
| LedgerProperties.ReleaseAllEachHeldOnce | src/pubkeeper/brew/google_cloud_pubsub/brew.py:57-62 | A patron holding each of its N topics once, destroyed while every delete succeeds: N delete requests, one per topic in snapshot order, and the patron's entry ends empty. |
| LedgerProperties.ApplyOne | src/pubkeeper/brew/google_cloud_pubsub/brew.py:84-106 | One matched acquire or release moves the count by one. It makes a request exactly when the count crosses between 0 and 1: a create going up, a delete going down. |
| LedgerProperties.CreatesAndDeletesAlternate | src/pubkeeper/brew/google_cloud_pubsub/brew.py:84-106 | For matched acquires and releases of one key whose requests succeed, creates and deletes strictly alternate. The final count is the balance of the operations, and the subscription is live afterwards iff that count is positive. |
| PubSubBrew.GoogleCloudPubSubBrew.constructor | src/pubkeeper/brew/google_cloud_pubsub/brew.py:14-24 | A new brew has an empty ledger and the given project and clients. |
| PubSubBrew.GoogleCloudPubSubBrew.CreateBrewer | src/pubkeeper/brew/google_cloud_pubsub/brew.py:41-51 | Creates the brewer's topic path. An "already exists" answer is not an error; any other failure raises. After a call that did not raise, the topic exists and a second creation of it is answered "already exists", so it would not raise. |
| PubSubBrew.GoogleCloudPubSubBrew.CreateSubscription | src/pubkeeper/brew/google_cloud_pubsub/brew.py:84-93 | The method's new ledger, added log entries and outcome are those of `Ledger.Acquire`. |
| PubSubBrew.GoogleCloudPubSubBrew.RemoveSubscription | src/pubkeeper/brew/google_cloud_pubsub/brew.py:95-106 | The method's new ledger, added log entries and outcome are those of `Ledger.Release`. |
| PubSubBrew.GoogleCloudPubSubBrew.DestroyPatron | src/pubkeeper/brew/google_cloud_pubsub/brew.py:57-62 | The loop over the snapshot ends in the ledger, log entries and outcome of `Ledger.ReleaseAll`. |
| PubSubBrew.GoogleCloudPubSubBrew.StartPatron | src/pubkeeper/brew/google_cloud_pubsub/brew.py:64-79 | The method's new ledger, added log entries and outcome are those of `Ledger.StartPatron`. |
| PubSubBrew.GoogleCloudPubSubBrew.StopPatron | src/pubkeeper/brew/google_cloud_pubsub/brew.py:81-82 | The method's new ledger, added log entries and outcome are those of `Ledger.Release`. |

## Behaviour worth knowing

The model follows what the code does. These consequences of it are proved:

- A refused create request is not rolled back (brew.py:86-93). The count
  stays at 1, so the next start of that key makes no create request; see
  `FailedStartRegistersNoHandler` and `StartAfterFailedStartSkipsCreate`.
- A refused delete request leaves the key stored with a count of 0 or less,
  because the `del` at line 106 never runs (`FailedDeleteLeavesEntry`).
- Releasing a key that is not held goes to -1 and still makes a delete
  request, because of the `defaultdict` (`SpuriousReleaseDeletes`).
- `destroy_patron` releases each topic once. A topic started twice keeps a
  count of one and its subscription (`ReleaseAllReleasesEachOnce`).
- Inner dictionaries are created by every read and never removed. The outer
  keys only grow (the `Keys` clauses of `Acquire`, `Release` and `ReleaseAll`).
- Subscription names are per patron. Two patrons on one topic get two
  subscriptions (`TwoPatronsTwoSubscriptions`). A dot in a patron id can make
  two keys on different topics share one subscription (`DottedPatronsCollide`).

## Left out

- `configure` (brew.py:30-39): it reads a context mapping and an environment
  variable and only logs. The project is a constructor argument instead.
- `create_patron` and the lazy creation of both clients (brew.py:42-43,
  53-55): the clients are given at construction. The `AttributeError` that
  the source raises when a patron is started before `create_patron` is not
  modelled.
- `brew` (brew.py:115-118): a one-line publish passthrough.
- `sub_callback` (brew.py:74-76): asynchronous delivery and acknowledgement.
  A registered handler is recorded as a `Subscribe(path, brewer)` request.
- Transport.CreateTopicReply: it is the cloud service's assumed answer to a
  create-topic request, not code of the brew; its contract only describes
  that assumption.
- The cloud service itself: which requests fail is given by the subscriber
  client's `refused` set and the publisher client's `rejected` set. Only the
  brew's requests and their success or failure are modelled. Errors are not
  told apart, except that topic creation separates "already exists" from
  other failures.
- The path formats `projects/<project>/subscriptions/<name>` and
  `projects/<project>/topics/<topic>` stand in for the client library's path
  templates. The library is not part of this model.
- Logging calls throughout, and concurrency: the code has none, and its
  operations are modelled as sequential calls.
- `CreatesAndDeletesAlternate` runs its acquires and releases through
  `RunKey`, a sequence of operations on one key. That sequence is a device
  for stating the property, not an operation of the source.
- `src/pubkeeper/brew/template/brew.py` and `setup.py` have no behaviour to
  model.
