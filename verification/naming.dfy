/**
 * How the brew names the external resources of a patron's subscription:
 * `__get_patron_subscriber_details` in brew.py. The subscription's short name
 * is "sub.<patron_id>.<topic>"; both names are turned into full resource paths
 * with the client library's path templates under the configured project.
 */
module Naming {

  type PatronId = string
  type Topic = string

  datatype Option<T> = None | Some(value: T)

  /** The short subscription name "sub.<patron_id>.<topic>". */
  function SubscriptionName(patron: PatronId, topic: Topic): (r: string)
    ensures |r| == |patron| + |topic| + 5
    ensures r[..4] == "sub." && r[4..4 + |patron|] == patron
    ensures r[4 + |patron|] == '.' && r[5 + |patron|..] == topic
  {
    "sub." + patron + "." + topic
  }

  /** The client library's template for a subscription's resource path. */
  function SubscriptionPath(project: string, name: string): string
  {
    "projects/" + project + "/subscriptions/" + name
  }

  /** The client library's template for a topic's resource path. */
  function TopicPath(project: string, topic: Topic): string
  {
    "projects/" + project + "/topics/" + topic
  }

  /** `__get_patron_subscriber_details`: (subscription path, topic path). */
  function Details(project: string, patron: PatronId, topic: Topic): (r: (string, string))
    ensures r.0 == SubscriptionPath(project, SubscriptionName(patron, topic))
    ensures r.1 == TopicPath(project, topic)
    ensures r.0 != r.1
  {
    var sub, top := SubscriptionPath(project, SubscriptionName(patron, topic)), TopicPath(project, topic);
    var k := |"projects/" + project| + 1;
    assert sub[k] == 's' && top[k] == 't';
    (sub, top)
  }

  /**
   * A way of naming a key's resources: (subscription path, topic path). The
   * brew's is `Details` bound to its configured project.
   */
  type Namer = (PatronId, Topic) -> (string, string)

  function ProjectNames(project: string): Namer
  {
    (patron, topic) => Details(project, patron, topic)
  }

  /** Index of the first '.' in `s`, or |s| when there is none. */
  function FirstDot(s: string): (i: nat)
    ensures i <= |s|
    ensures i < |s| ==> s[i] == '.'
    ensures forall j :: 0 <= j < i ==> s[j] != '.'
  {
    if s == [] then 0
    else if s[0] == '.' then 0
    else 1 + FirstDot(s[1..])
  }

  /**
   * Reads a short subscription name back into (patron, topic), splitting at
   * the first '.' after the "sub." prefix.
   */
  function ParseSubscriptionName(name: string): Option<(PatronId, Topic)>
  {
    if |name| < 4 || name[..4] != "sub." then None
    else
      var rest := name[4..];
      var i := FirstDot(rest);
      if i == |rest| then None else Some((rest[..i], rest[i + 1..]))
  }

  /** For a patron id without dots the short name can be read back. */
  lemma ParseInvertsName(patron: PatronId, topic: Topic)
    requires '.' !in patron
    ensures ParseSubscriptionName(SubscriptionName(patron, topic)) == Some((patron, topic))
  {
    var name := SubscriptionName(patron, topic);
    var rest := patron + "." + topic;
    assert name[..4] == "sub.";
    assert name[4..] == rest;
    assert forall j :: 0 <= j < |patron| ==> rest[j] == patron[j];
    assert rest[|patron|] == '.';
    var i := FirstDot(rest);
    assert i == |patron|;
    assert rest[..i] == patron;
    assert rest[i + 1..] == topic;
  }

  /** Distinct keys get distinct subscription names, as long as patron ids carry no dot. */
  lemma SubscriptionNameInjective(p1: PatronId, t1: Topic, p2: PatronId, t2: Topic)
    requires '.' !in p1 && '.' !in p2
    requires SubscriptionName(p1, t1) == SubscriptionName(p2, t2)
    ensures p1 == p2 && t1 == t2
  {
    ParseInvertsName(p1, t1);
    ParseInvertsName(p2, t2);
  }

  /** A dot in a patron id lets two different keys share one subscription name. */
  lemma DottedPatronsCollide()
    ensures SubscriptionName("a.b", "c") == SubscriptionName("a", "b.c")
    ensures ("a.b", "c") != ("a", "b.c")
  {
  }

  /** Within one project, the topic path determines the topic. */
  lemma TopicPathInjective(project: string, t1: Topic, t2: Topic)
    requires TopicPath(project, t1) == TopicPath(project, t2)
    ensures t1 == t2
  {
    var prefix := "projects/" + project + "/topics/";
    assert TopicPath(project, t1)[|prefix|..] == t1;
    assert TopicPath(project, t2)[|prefix|..] == t2;
  }

  /** Within one project, the subscription path determines the short name. */
  lemma SubscriptionPathInjective(project: string, n1: string, n2: string)
    requires SubscriptionPath(project, n1) == SubscriptionPath(project, n2)
    ensures n1 == n2
  {
    var prefix := "projects/" + project + "/subscriptions/";
    assert SubscriptionPath(project, n1)[|prefix|..] == n1;
    assert SubscriptionPath(project, n2)[|prefix|..] == n2;
  }

  /**
   * The details are a function of (patron, topic): the topic path does not
   * depend on the patron, and for dot-free patron ids different keys never
   * share a subscription path.
   */
  lemma DetailsDistinguishKeys(project: string, p1: PatronId, t1: Topic, p2: PatronId, t2: Topic)
    requires '.' !in p1 && '.' !in p2
    ensures Details(project, p1, t1).1 == Details(project, p2, t1).1
    ensures Details(project, p1, t1).0 == Details(project, p2, t2).0 ==> p1 == p2 && t1 == t2
  {
    if Details(project, p1, t1).0 == Details(project, p2, t2).0 {
      SubscriptionPathInjective(project, SubscriptionName(p1, t1), SubscriptionName(p2, t2));
      SubscriptionNameInjective(p1, t1, p2, t2);
    }
  }

  /** On one topic, the short name determines the patron, dots or not. */
  lemma ShortNameSameTopic(a: PatronId, b: PatronId, t: Topic)
    requires SubscriptionName(a, t) == SubscriptionName(b, t)
    ensures a == b
  {
    var na, nb := SubscriptionName(a, t), SubscriptionName(b, t);
    assert |a| == |b|;
    assert na[4..4 + |a|] == a;
    assert nb[4..4 + |b|] == b;
  }

  /** On one topic, the subscription path determines the patron: two patrons never share one. */
  lemma SameTopicPathsDiffer(project: string, a: PatronId, b: PatronId, t: Topic)
    ensures Details(project, a, t).0 == Details(project, b, t).0 ==> a == b
  {
    if Details(project, a, t).0 == Details(project, b, t).0 {
      SubscriptionPathInjective(project, SubscriptionName(a, t), SubscriptionName(b, t));
      ShortNameSameTopic(a, b, t);
    }
  }
}
