/**
  One reconciliation pass of `KopEventManager.DeleteTopicsEvent.process`.

  The collaborators are inputs: whether the group coordinator is active, the
  listing of the delete-topics path (`None` when `getChildren(...).get()`
  throws), the `KopTopic` full-name normaliser, and the consumer groups
  currently loaded, each given by the topic-partitions it owns. What the pass
  does to them is its result: the partitions handed to
  `coordinator.handleDeletedPartitions` and the listed names whose store
  entries are deleted.
*/
module DeleteTopics {
  import opened Common
  import Paths

  datatype TopicPartition = TopicPartition(topic: string, partition: int)

  /** A loaded consumer group (`GroupMetadata`), seen through the partitions it owns. */
  datatype GroupView = GroupView(partitions: set<TopicPartition>)

  datatype DeletePass =
    | Inactive                // the coordinator is not active: nothing happens
    | ListingFailed           // listing the pending deletions threw: the pass stops before any effect
    | Reconciled(forgotten: set<TopicPartition>, deletedTopics: set<string>)
      // `forgotten` went to handleDeletedPartitions (no call when it is empty);
      // each of `deletedTopics` had its entry under the delete-topics path deleted
  {
    /** The store paths the pass deletes. */
    function DeletedPaths(): set<string> {
      if Reconciled? then set t | t in deletedTopics :: Paths.DeleteTopicPath(t) else {}
    }
  }

  /** The full names of the listed topics (`topicsFullNameDeletionsSets`). */
  function FullNames(listed: seq<string>, fullName: string -> string): set<string> {
    set t | t in listed :: fullName(t)
  }

  /** `GroupMetadata.collectPartitionsWithTopics`: the owned partitions of the given topics. */
  function CollectPartitionsWithTopics(g: GroupView, topics: set<string>): set<TopicPartition> {
    set tp | tp in g.partitions && tp.topic in topics
  }

  /** The union over the groups (`topicPartitionsToBeDeletions`). */
  function PartitionsToDelete(groups: seq<GroupView>, topics: set<string>): set<TopicPartition> {
    set g, tp | g in groups && tp in g.partitions && tp.topic in topics :: tp
  }

  function TopicsOf(partitions: set<TopicPartition>): set<string> {
    set tp | tp in partitions :: tp.topic
  }

  /** The listed names whose full name is the topic of a forgotten partition. */
  function DeletedTopics(listed: seq<string>, fullName: string -> string, forgotten: set<TopicPartition>): set<string> {
    set t | t in listed && fullName(t) in TopicsOf(forgotten)
  }

  /** What one pass does, as a function of what it reads. */
  function Reconcile(active: bool, listing: Option<seq<string>>, fullName: string -> string, groups: seq<GroupView>): (r: DeletePass)
    ensures r == Inactive <==> !active
    ensures r == ListingFailed <==> active && listing.None?
    ensures r.Reconciled? ==> forall tp :: tp in r.forgotten ==> exists g :: g in groups && tp in g.partitions
    ensures r.Reconciled? ==> forall t :: t in r.deletedTopics ==> t in listing.value
    ensures r.Reconciled? && r.forgotten == {} ==> r.deletedTopics == {}
  {
    if !active then Inactive
    else if listing.None? then ListingFailed
    else
      var forgotten := PartitionsToDelete(groups, FullNames(listing.value, fullName));
      Reconciled(forgotten, if forgotten == {} then {} else DeletedTopics(listing.value, fullName, forgotten))
  }

  /** `DeleteTopicsEvent.process`, with its `forEach` loops. */
  method ProcessDeleteTopics(active: bool, listing: Option<seq<string>>, fullName: string -> string, groups: seq<GroupView>)
    returns (r: DeletePass)
    ensures r == Reconcile(active, listing, fullName, groups)
  {
    if !active {
      return Inactive;
    }
    if listing.None? {
      return ListingFailed;
    }
    var topicsDeletions := listing.value;

    var fullNames: set<string> := {};
    var i := 0;
    while i < |topicsDeletions|
      invariant 0 <= i <= |topicsDeletions|
      invariant fullNames == FullNames(topicsDeletions[..i], fullName)
    {
      assert topicsDeletions[..i + 1] == topicsDeletions[..i] + [topicsDeletions[i]];
      fullNames := fullNames + {fullName(topicsDeletions[i])};
      i := i + 1;
    }
    assert topicsDeletions[..i] == topicsDeletions;

    var toDelete: set<TopicPartition> := {};
    var j := 0;
    while j < |groups|
      invariant 0 <= j <= |groups|
      invariant toDelete == PartitionsToDelete(groups[..j], fullNames)
    {
      assert groups[..j + 1] == groups[..j] + [groups[j]];
      toDelete := toDelete + CollectPartitionsWithTopics(groups[j], fullNames);
      j := j + 1;
    }
    assert groups[..j] == groups;

    var deletedTopics: set<string> := {};
    if toDelete != {} {
      var collectDeleteTopics := set tp | tp in toDelete :: tp.topic;
      var k := 0;
      while k < |topicsDeletions|
        invariant 0 <= k <= |topicsDeletions|
        invariant deletedTopics == DeletedTopics(topicsDeletions[..k], fullName, toDelete)
      {
        assert topicsDeletions[..k + 1] == topicsDeletions[..k] + [topicsDeletions[k]];
        if fullName(topicsDeletions[k]) in collectDeleteTopics {
          deletedTopics := deletedTopics + {topicsDeletions[k]};
        }
        k := k + 1;
      }
      assert topicsDeletions[..k] == topicsDeletions;
    }
    r := Reconciled(toDelete, deletedTopics);
  }

  /** A listed topic is deleted exactly when some loaded group owns a partition of its full name. */
  lemma DeletedIffOwned(listed: seq<string>, fullName: string -> string, groups: seq<GroupView>, t: string)
    requires Reconcile(true, Some(listed), fullName, groups).Reconciled?
    ensures t in Reconcile(true, Some(listed), fullName, groups).deletedTopics
            <==> t in listed && exists g, tp :: g in groups && tp in g.partitions && tp.topic == fullName(t)
  {
    var forgotten := PartitionsToDelete(groups, FullNames(listed, fullName));
    if t in listed && exists g, tp :: g in groups && tp in g.partitions && tp.topic == fullName(t) {
      var g, tp :| g in groups && tp in g.partitions && tp.topic == fullName(t);
      assert fullName(t) in FullNames(listed, fullName);
      assert tp in forgotten;
      assert fullName(t) in TopicsOf(forgotten);
    }
  }

  /** The partitions forgotten are exactly the owned partitions of the listed topics' full names. */
  lemma ForgottenIffListed(listed: seq<string>, fullName: string -> string, groups: seq<GroupView>, tp: TopicPartition)
    requires Reconcile(true, Some(listed), fullName, groups).Reconciled?
    ensures tp in Reconcile(true, Some(listed), fullName, groups).forgotten
            <==> (exists g :: g in groups && tp in g.partitions) && exists t :: t in listed && fullName(t) == tp.topic
  {
  }

  /** Deletions and the coordinator call happen only when some partition was collected. */
  lemma EffectsNeedCollectedPartitions(active: bool, listing: Option<seq<string>>, fullName: string -> string, groups: seq<GroupView>)
    ensures var r := Reconcile(active, listing, fullName, groups);
            r.Reconciled? && r.forgotten == {} ==> r.deletedTopics == {} && r.DeletedPaths() == {}
    ensures var r := Reconcile(active, listing, fullName, groups);
            !r.Reconciled? ==> r.DeletedPaths() == {}
  {
  }

  /** Forgetting partitions removes them from every group. */
  function ForgetPartitions(groups: seq<GroupView>, forgotten: set<TopicPartition>): (r: seq<GroupView>)
    ensures |r| == |groups|
    ensures forall k :: 0 <= k < |groups| ==> r[k].partitions == groups[k].partitions - forgotten
  {
    if groups == [] then []
    else [GroupView(groups[0].partitions - forgotten)] + ForgetPartitions(groups[1..], forgotten)
  }

  /**
    Once the coordinator has forgotten the partitions of a pass, a later pass
    over the same (or a smaller) listing finds nothing more to forget or delete.
  */
  lemma SecondPassIsQuiet(listed: seq<string>, fullName: string -> string, groups: seq<GroupView>, listed': seq<string>)
    requires Reconcile(true, Some(listed), fullName, groups).Reconciled?
    requires forall t :: t in listed' ==> t in listed
    ensures var forgotten := Reconcile(true, Some(listed), fullName, groups).forgotten;
            Reconcile(true, Some(listed'), fullName, ForgetPartitions(groups, forgotten)) == Reconciled({}, {})
  {
    var forgotten := Reconcile(true, Some(listed), fullName, groups).forgotten;
    var groups' := ForgetPartitions(groups, forgotten);
    var names' := FullNames(listed', fullName);
    assert forall t :: t in listed' ==> fullName(t) in FullNames(listed, fullName);
    forall g', tp | g' in groups' && tp in g'.partitions
      ensures tp.topic !in names'
    {
      var k :| 0 <= k < |groups'| && groups'[k] == g';
      assert tp in groups[k].partitions && tp !in forgotten;
      assert tp.topic in FullNames(listed, fullName) ==> tp in forgotten;
    }
    assert PartitionsToDelete(groups', names') == {};
  }
}
