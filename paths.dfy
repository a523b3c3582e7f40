/** The fixed metadata-store paths the event manager watches. */
module Paths {

  function KopPath(): string {
    "/kop"
  }

  /** Children of this path are topics waiting to be deleted. */
  function DeleteTopicsPath(): (p: string)
    ensures p == "/kop/delete_topics"
    ensures KopPath() <= p
  {
    KopPath() + "/delete_topics"
  }

  /**
    `LoadManager.LOADBALANCE_BROKERS_ROOT` of Pulsar, where every broker
    registers itself.
  */
  function BrokersChangePath(): (p: string)
    ensures p == "/loadbalance/brokers"
    ensures p[0] == '/' && !(KopPath() <= p)
  {
    var p := "/loadbalance/brokers";
    assert p[1] != KopPath()[1];
    p
  }

  /** The store entry of one pending deletion. */
  function DeleteTopicPath(topic: string): (p: string)
    ensures DeleteTopicsPath() + "/" <= p && p[|DeleteTopicsPath()| + 1..] == topic
  {
    DeleteTopicsPath() + "/" + topic
  }

  /** The two watched paths are distinct, so a notification triggers at most one handler. */
  lemma WatchedPathsDistinct()
    ensures BrokersChangePath() != DeleteTopicsPath()
  {
    assert BrokersChangePath()[1] != DeleteTopicsPath()[1];
  }
}
