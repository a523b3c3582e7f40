/**
  The broker-cache refresh of `KopEventManager.getBrokers`.

  `getBrokers` starts a countdown at the number of listed brokers and issues
  one asynchronous lookup per broker. Each lookup's callback runs once, in
  any order, as one atomic step. A callback that reaches the decrement and
  brings the count to 0 publishes the collected nodes with
  `adminManager.setBrokers`. A callback that fails, or throws before the
  decrement, leaves the count where it was, so that refresh never publishes.
*/
module BrokerRefresh {
  import opened Common
  import opened Endpoint

  /**
    How a callback turns an advertised endpoint into a node: `getNode` with the
    node-id hash fixed (`GetNodeWith`). The lemmas below hold for any parser.
  */
  type Parser = string -> Result<Node, NodeError>

  function GetNodeWith(hash: string -> int32): Parser {
    s => GetNode(s, hash)
  }

  /** What a broker's registration lookup turned out to be. */
  datatype BrokerLookup =
    | LookupFailed                    // the future completed with an exception
    | NoData                          // no registration data
    | Unreadable                      // not a JSON object, no "protocols" object, or a "kafka" member that `getAsString` rejects
    | NoKafkaEndpoint                 // "protocols" has no "kafka" member
    | KafkaEndpoint(endpoint: string) // the "kafka" member, handed to getNode

  /** The callback gets to `pendingBrokers.decrementAndGet()`. */
  predicate Decrements(o: BrokerLookup, parse: Parser) {
    match o
    case LookupFailed => false
    case NoData => true
    case Unreadable => false
    case NoKafkaEndpoint => true
    case KafkaEndpoint(s) => parse(s).Success?
  }

  /** The callback adds a node to `kopBrokers`. */
  predicate Contributes(o: BrokerLookup, parse: Parser) {
    o.KafkaEndpoint? && parse(o.endpoint).Success?
  }

  /** The node a contributing callback adds. */
  function Contribution(o: BrokerLookup, parse: Parser): set<Node> {
    if Contributes(o, parse) then {parse(o.endpoint).value} else {}
  }

  /** How many of the callbacks, fired in this order, decremented the count. */
  function DecrementCount(fired: seq<BrokerLookup>, parse: Parser): (n: nat)
    ensures n <= |fired|
  {
    if fired == [] then 0
    else DecrementCount(fired[..|fired| - 1], parse) + (if Decrements(fired[|fired| - 1], parse) then 1 else 0)
  }

  /** The nodes the callbacks, fired in this order, have added. */
  function Collected(fired: seq<BrokerLookup>, parse: Parser): set<Node> {
    if fired == [] then {}
    else Collected(fired[..|fired| - 1], parse) + Contribution(fired[|fired| - 1], parse)
  }

  /** The refresh over these lookups publishes: there was a broker and every callback decremented. */
  predicate Publishes(lookups: seq<BrokerLookup>, parse: Parser) {
    |lookups| > 0 && DecrementCount(lookups, parse) == |lookups|
  }

  /** The count reaches 0 exactly when every callback decremented. */
  lemma {:induction false} AllDecrementIff(fired: seq<BrokerLookup>, parse: Parser)
    ensures DecrementCount(fired, parse) == |fired| <==> forall k :: 0 <= k < |fired| ==> Decrements(fired[k], parse)
  {
    if fired != [] {
      var init := fired[..|fired| - 1];
      AllDecrementIff(init, parse);
      assert forall k :: 0 <= k < |init| ==> init[k] == fired[k];
    }
  }

  /** The collected set is the union of what each callback contributes. */
  lemma {:induction false} CollectedExactly(fired: seq<BrokerLookup>, parse: Parser, n: Node)
    ensures n in Collected(fired, parse) <==> exists k :: 0 <= k < |fired| && n in Contribution(fired[k], parse)
  {
    if fired != [] {
      var init := fired[..|fired| - 1];
      CollectedExactly(init, parse, n);
      if n in Collected(init, parse) {
        var k :| 0 <= k < |init| && n in Contribution(init[k], parse);
        assert fired[k] == init[k];
      }
      if exists k :: 0 <= k < |fired| && n in Contribution(fired[k], parse) {
        var k :| 0 <= k < |fired| && n in Contribution(fired[k], parse);
        if k < |init| {
          assert init[k] == fired[k];
        }
      }
    }
  }

  /** Firing one more callback adds its decrement and its node, if any. */
  lemma FiredStep(fired: seq<BrokerLookup>, o: BrokerLookup, parse: Parser)
    ensures DecrementCount(fired + [o], parse) == DecrementCount(fired, parse) + (if Decrements(o, parse) then 1 else 0)
    ensures Collected(fired + [o], parse) == Collected(fired, parse) + Contribution(o, parse)
  {
    assert (fired + [o])[..|fired|] == fired;
  }

  /** One failed lookup, or one callback that throws, and the cache is never published. */
  lemma NoPublishAfterFailure(lookups: seq<BrokerLookup>, parse: Parser, k: nat)
    requires k < |lookups| && !Decrements(lookups[k], parse)
    ensures !Publishes(lookups, parse)
  {
    AllDecrementIff(lookups, parse);
  }

  /**
    A node is collected exactly when some lookup found a "kafka" endpoint that
    parses to it: lookups without data, without a kafka entry or that failed add nothing.
  */
  lemma CollectedIsParsedEndpoints(fired: seq<BrokerLookup>, parse: Parser, n: Node)
    ensures n in Collected(fired, parse)
            <==> exists k :: 0 <= k < |fired| && fired[k].KafkaEndpoint? && parse(fired[k].endpoint) == Success(n)
  {
    CollectedExactly(fired, parse, n);
    if exists k :: 0 <= k < |fired| && fired[k].KafkaEndpoint? && parse(fired[k].endpoint) == Success(n) {
      var k :| 0 <= k < |fired| && fired[k].KafkaEndpoint? && parse(fired[k].endpoint) == Success(n);
      assert n in Contribution(fired[k], parse);
    }
  }

  /** An advertised endpoint that `getNode` rejects stops the cache from being published. */
  lemma BadEndpointBlocksPublish(lookups: seq<BrokerLookup>, hash: string -> int32, k: nat)
    requires k < |lookups| && lookups[k].KafkaEndpoint? && GetNode(lookups[k].endpoint, hash).Failure?
    ensures !Publishes(lookups, GetNodeWith(hash))
  {
    assert !Decrements(lookups[k], GetNodeWith(hash));
    NoPublishAfterFailure(lookups, GetNodeWith(hash), k);
  }

  /** The order in which the callbacks fire changes neither whether nor what is published. */
  lemma OrderIrrelevant(lookups: seq<BrokerLookup>, lookups': seq<BrokerLookup>, parse: Parser)
    requires multiset(lookups) == multiset(lookups')
    ensures Publishes(lookups, parse) == Publishes(lookups', parse)
    ensures Collected(lookups, parse) == Collected(lookups', parse)
  {
    assert |lookups| == |lookups'| by {
      assert |multiset(lookups)| == |multiset(lookups')|;
    }
    assert forall o :: o in lookups <==> o in lookups' by {
      forall o ensures o in lookups <==> o in lookups' {
        assert o in lookups <==> o in multiset(lookups);
        assert o in lookups' <==> o in multiset(lookups');
      }
    }
    AllDecrementIff(lookups, parse);
    AllDecrementIff(lookups', parse);
    if forall k :: 0 <= k < |lookups| ==> Decrements(lookups[k], parse) {
      forall k' | 0 <= k' < |lookups'| ensures Decrements(lookups'[k'], parse) {
        assert lookups'[k'] in lookups;
      }
    }
    if forall k' :: 0 <= k' < |lookups'| ==> Decrements(lookups'[k'], parse) {
      forall k | 0 <= k < |lookups| ensures Decrements(lookups[k], parse) {
        assert lookups[k] in lookups';
      }
    }
    forall n ensures n in Collected(lookups, parse) <==> n in Collected(lookups', parse) {
      CollectedExactly(lookups, parse, n);
      CollectedExactly(lookups', parse, n);
      if n in Collected(lookups, parse) {
        var k :| 0 <= k < |lookups| && n in Contribution(lookups[k], parse);
        assert lookups[k] in lookups';
        var k' :| 0 <= k' < |lookups'| && lookups'[k'] == lookups[k];
      }
      if n in Collected(lookups', parse) {
        var k :| 0 <= k < |lookups'| && n in Contribution(lookups'[k], parse);
        assert lookups'[k] in lookups;
        var k' :| 0 <= k' < |lookups| && lookups[k'] == lookups'[k];
      }
    }
  }

  /**
    The state one `getBrokers` call shares with its callbacks: the
    `AtomicInteger` countdown, the concurrent `kopBrokers` set, and the
    `adminManager.setBrokers` calls it has made.
  */
  class PendingRefresh {
    const parse: Parser
    const brokerCount: nat
    var pendingBrokers: int
    var kopBrokers: set<Node>
    var published: seq<set<Node>>
    ghost var fired: seq<BrokerLookup>

    ghost predicate Valid()
      reads this
      ensures Valid() ==> |published| <= 1
    {
      && |fired| <= brokerCount
      && pendingBrokers == brokerCount - DecrementCount(fired, parse)
      && kopBrokers == Collected(fired, parse)
      && published == (if brokerCount > 0 && pendingBrokers == 0 then [kopBrokers] else [])
    }

    constructor (brokerCount: nat, parse: Parser)
      ensures Valid() && this.brokerCount == brokerCount && this.parse == parse
      ensures fired == [] && pendingBrokers == brokerCount && kopBrokers == {} && published == []
    {
      this.parse := parse;
      this.brokerCount := brokerCount;
      pendingBrokers := brokerCount;
      kopBrokers := {};
      published := [];
      fired := [];
    }

    /** The `whenComplete` callback of one broker's lookup; each broker's fires once. */
    method Complete(o: BrokerLookup)
      requires Valid() && |fired| < brokerCount
      modifies this
      ensures Valid() && fired == old(fired) + [o]
      ensures pendingBrokers == old(pendingBrokers) - (if Decrements(o, parse) then 1 else 0)
      ensures kopBrokers == old(kopBrokers) + Contribution(o, parse)
      ensures published == (if Decrements(o, parse) && old(pendingBrokers) == 1 then [kopBrokers] else old(published))
    {
      FiredStep(fired, o, parse);
      fired := fired + [o];
      var decrement := true;
      match o {
        case LookupFailed =>
          decrement := false;
        case NoData =>
        case Unreadable =>
          decrement := false;
        case NoKafkaEndpoint =>
        case KafkaEndpoint(s) =>
          var node := parse(s);
          if node.Success? {
            kopBrokers := kopBrokers + {node.value};
          } else {
            decrement := false;
          }
      }
      if decrement {
        pendingBrokers := pendingBrokers - 1;
        if pendingBrokers == 0 {
          published := published + [kopBrokers];
        }
      }
    }
  }

  /**
    One `getBrokers` call over the listed brokers, whose callbacks fire in the
    order of `lookups`; the result lists every `setBrokers` call it makes.
  */
  method RefreshBrokers(lookups: seq<BrokerLookup>, parse: Parser) returns (published: seq<set<Node>>)
    ensures |published| <= 1
    ensures published != [] <==> Publishes(lookups, parse)
    ensures published != [] ==> published[0] == Collected(lookups, parse)
  {
    var refresh := new PendingRefresh(|lookups|, parse);
    var k := 0;
    while k < |lookups|
      invariant 0 <= k <= |lookups|
      invariant refresh.Valid() && refresh.fired == lookups[..k]
      invariant refresh.brokerCount == |lookups| && refresh.parse == parse
    {
      refresh.Complete(lookups[k]);
      assert lookups[..k + 1] == lookups[..k] + [lookups[k]];
      k := k + 1;
    }
    assert lookups[..k] == lookups;
    published := refresh.published;
  }
}
