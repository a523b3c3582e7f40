/**
  `KopEventManager`: a FIFO of events filled by store notifications and
  drained one event at a time by the event thread.

  Each call and each callback is one atomic step. The collaborators the
  events read (the group coordinator, the metadata store and its lookups) are
  given to `DoWork` as a `World`; what the events do to them is recorded in
  `deletePasses` and in the broker cache `brokers`.
*/
module EventManager {
  import opened Common
  import opened Endpoint
  import Paths
  import DeleteTopics
  import BrokerRefresh

  /** The `KopEvent`s; `ShutdownEventThread` is the sentinel that `close` enqueues. */
  datatype Event = DeleteTopicsEvent | BrokersChangeEvent | ShutdownEventThread

  /**
    `handleChildChangePathNotification`: the event a store notification
    leads to. A change under the brokers root reaches the brokers-change handler,
    a change of the delete-topics path the deletion handler, and any other path
    nothing.
  */
  function Route(path: string): (e: Option<Event>)
    ensures e == Some(BrokersChangeEvent) <==> path == Paths.BrokersChangePath()
    ensures e == Some(DeleteTopicsEvent) <==> path == Paths.DeleteTopicsPath()
    ensures e.None? <==> path != Paths.BrokersChangePath() && path != Paths.DeleteTopicsPath()
    ensures e != Some(ShutdownEventThread)
  {
    Paths.WatchedPathsDistinct();
    if path == Paths.BrokersChangePath() then Some(BrokersChangeEvent)
    else if path == Paths.DeleteTopicsPath() then Some(DeleteTopicsEvent)
    else None
  }

  /** What the collaborators report while the event thread processes one event. */
  datatype World = World(
    coordinatorActive: bool,                               // `coordinator.isActive()`
    deleteListing: Option<seq<string>>,                    // children of the delete-topics path; `None` when listing throws
    groups: seq<DeleteTopics.GroupView>,                   // `currentGroups()` of the group manager
    brokerListing: Option<seq<BrokerRefresh.BrokerLookup>> // the brokers' lookups, in callback order; `None` when listing fails
  )

  predicate NotSentinel(e: Event) {
    e != ShutdownEventThread
  }

  class KopEventManager {
    /** `Murmur3_32Hash.makeHash` over the UTF-8 bytes of a string. */
    const hash: string -> int32
    /** `new KopTopic(name).getFullName()`. */
    const fullName: string -> string
    /** The pending events, head first. */
    var queue: seq<Event>
    /** The broker cache of `adminManager`. */
    var brokers: set<Node>
    /** The delete-topics passes run so far, with what each did to the coordinator and the store. */
    var deletePasses: seq<DeleteTopics.DeletePass>
    /** The events whose `process()` has been called, in order. */
    ghost var processed: seq<Event>

    ghost predicate Valid()
      reads this
    {
      forall k :: 0 <= k < |processed| ==> NotSentinel(processed[k])
    }

    constructor (hash: string -> int32, fullName: string -> string, brokers: set<Node>)
      ensures Valid()
      ensures this.hash == hash && this.fullName == fullName && this.brokers == brokers
      ensures queue == [] && deletePasses == [] && processed == []
    {
      this.hash := hash;
      this.fullName := fullName;
      this.brokers := brokers;
      queue := [];
      deletePasses := [];
      processed := [];
    }

    /** `put`: the event joins the tail; the events already queued keep their order. */
    method Put(e: Event)
      modifies this`queue
      ensures queue == old(queue) + [e]
    {
      queue := queue + [e];
    }

    /** `clearAndPut`: whatever was queued is dropped, and the event is all that remains. */
    method ClearAndPut(e: Event)
      modifies this`queue
      ensures queue == [e]
    {
      queue := [];
      Put(e);
    }

    /** `close`: the shutdown sentinel replaces every pending event. */
    method Close()
      modifies this`queue
      ensures queue == [ShutdownEventThread]
    {
      ClearAndPut(ShutdownEventThread);
    }

    /** The notification listener: a watched path enqueues its event, any other path is ignored. */
    method HandleChildChangePathNotification(path: string)
      modifies this`queue
      ensures Route(path).Some? ==> queue == old(queue) + [Route(path).value]
      ensures Route(path).None? ==> queue == old(queue)
    {
      var e := Route(path);
      if e.Some? {
        Put(e.value);
      }
    }

    /** `getBrokers`: the cache is replaced only when the refresh publishes, and then by the collected nodes. */
    method GetBrokers(lookups: seq<BrokerRefresh.BrokerLookup>)
      modifies this`brokers
      ensures BrokerRefresh.Publishes(lookups, BrokerRefresh.GetNodeWith(hash))
              ==> brokers == BrokerRefresh.Collected(lookups, BrokerRefresh.GetNodeWith(hash))
      ensures !BrokerRefresh.Publishes(lookups, BrokerRefresh.GetNodeWith(hash)) ==> brokers == old(brokers)
    {
      var published := BrokerRefresh.RefreshBrokers(lookups, BrokerRefresh.GetNodeWith(hash));
      if published != [] {
        brokers := published[0];
      }
    }

    /** `start`, without the event thread: listen, and fill the broker cache from the listed brokers. */
    method Start(bootstrap: seq<BrokerRefresh.BrokerLookup>)
      modifies this`brokers
      ensures BrokerRefresh.Publishes(bootstrap, BrokerRefresh.GetNodeWith(hash))
              ==> brokers == BrokerRefresh.Collected(bootstrap, BrokerRefresh.GetNodeWith(hash))
      ensures !BrokerRefresh.Publishes(bootstrap, BrokerRefresh.GetNodeWith(hash)) ==> brokers == old(brokers)
    {
      GetBrokers(bootstrap);
    }

    /**
      `KopEventThread.doWork`: take the head event and, unless it is the
      shutdown sentinel, process it once. On an empty queue `take()` waits; the
      step then returns `None` and changes nothing.
    */
    method DoWork(world: World) returns (taken: Option<Event>)
      requires Valid()
      modifies this`queue, this`brokers, this`deletePasses, this`processed
      ensures Valid()
      ensures old(queue) == [] ==> taken.None? && queue == [] && unchanged(this)
      ensures old(queue) != [] ==> taken == Some(old(queue)[0]) && queue == old(queue)[1..]
      ensures taken == Some(ShutdownEventThread) ==> unchanged(this`brokers, this`deletePasses, this`processed)
      ensures taken == Some(DeleteTopicsEvent) ==>
                processed == old(processed) + [DeleteTopicsEvent] && brokers == old(brokers)
                && deletePasses == old(deletePasses)
                   + [DeleteTopics.Reconcile(world.coordinatorActive, world.deleteListing, fullName, world.groups)]
      ensures taken == Some(BrokersChangeEvent) ==>
                processed == old(processed) + [BrokersChangeEvent] && deletePasses == old(deletePasses)
                && var refreshed := world.brokerListing.Some?
                                    && BrokerRefresh.Publishes(world.brokerListing.value, BrokerRefresh.GetNodeWith(hash));
                   brokers == if refreshed then BrokerRefresh.Collected(world.brokerListing.value, BrokerRefresh.GetNodeWith(hash))
                              else old(brokers)
    {
      if queue == [] {
        return None;
      }
      var event := queue[0];
      queue := queue[1..];
      taken := Some(event);
      match event {
        case ShutdownEventThread =>
        case DeleteTopicsEvent =>
          processed := processed + [event];
          var pass := DeleteTopics.ProcessDeleteTopics(world.coordinatorActive, world.deleteListing, fullName, world.groups);
          deletePasses := deletePasses + [pass];
        case BrokersChangeEvent =>
          processed := processed + [event];
          if world.brokerListing.Some? {
            GetBrokers(world.brokerListing.value);
          }
      }
    }
  }
}
