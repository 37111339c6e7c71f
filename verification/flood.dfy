/**
 A flood of queries over a finite graph of contexts. Each context has its own
 environment and its own handled-identifier set; in-flight messages wait in
 an inbox and are delivered in any order, each delivery running the target
 context's handler. A message to a handle no context answers to is lost, as
 a `postMessage` to a terminated worker is.

 Because each context guards itself with its own set, no context processes a
 query with a nonzero identifier twice, a flood of one such query always
 drains, and when it has drained every neighbour of every context that
 processed it has processed it too.
 */
module Flood {
  import opened Options
  import opened Envelope
  import opened FanOut
  import opened Handler
  import Records

  /** A message on its way to context `dest`. */
  datatype Delivery = Delivery(dest: Handle, msg: Message)

  /** Context `node` ran the search for the query identified by `uid`. */
  datatype Event = Event(node: Handle, uid: int)

  /** The contexts, their handled-identifier sets, the messages in flight, and what has been processed so far. */
  datatype Net = Net(envs: seq<Env>, seen: seq<set<int>>, inbox: seq<Delivery>, log: seq<Event>)

  ghost predicate WellFormed(net: Net) {
    |net.seen| == |net.envs|
  }

  /** The messages one fan-out sends. */
  function Deliveries(targets: seq<Target>, msg: Message): (ds: seq<Delivery>)
    ensures |ds| == |targets|
    ensures forall k :: 0 <= k < |targets| ==> ds[k] == Delivery(targets[k].handle, msg)
  {
    seq(|targets|, k requires 0 <= k < |targets| => Delivery(targets[k].handle, msg))
  }

  /** The inbox without its `k`-th message. */
  function Without(inbox: seq<Delivery>, k: nat): (r: seq<Delivery>)
    requires k < |inbox|
    ensures |r| == |inbox| - 1
    ensures forall d :: d in r ==> d in inbox
    ensures forall d :: d in inbox && d != inbox[k] ==> d in r
  {
    inbox[..k] + inbox[k + 1..]
  }

  /**
   Deliver the `k`-th message in flight: the destination's listener runs on
   it. `DeliverEffect` states the outcome.
   */
  function Deliver(net: Net, k: nat): (net': Net)
    requires WellFormed(net) && k < |net.inbox|
    ensures WellFormed(net') && net'.envs == net.envs
  {
    var d := net.inbox[k];
    var rest := Without(net.inbox, k);
    if |net.envs| <= d.dest then net.(inbox := rest)
    else
      match HandleMessage(Some(d.msg), net.seen[d.dest], net.envs[d.dest])
      case Dropped => net.(inbox := rest)
      case Processed(seen', _, _, fwd, targets) =>
        Net(net.envs, net.seen[d.dest := seen'], rest + Deliveries(targets, fwd), net.log + [Event(d.dest, d.msg.uid.n)])
  }

  /**
   A delivery in terms of the validator alone: a message the destination
   refuses (or a lost one) only leaves the inbox; an accepted one is recorded
   in its destination's set and in the log, and its fan-out joins the inbox.
   */
  lemma DeliverEffect(net: Net, k: nat)
    requires WellFormed(net) && k < |net.inbox|
    ensures var d := net.inbox[k];
      !(d.dest < |net.envs| && IsValidMessageEvent(Some(d.msg), net.seen[d.dest])) ==>
        Deliver(net, k) == net.(inbox := Without(net.inbox, k))
    ensures var d := net.inbox[k];
      d.dest < |net.envs| && IsValidMessageEvent(Some(d.msg), net.seen[d.dest]) ==>
        Deliver(net, k) == Net(
          net.envs,
          net.seen[d.dest := net.seen[d.dest] + {d.msg.uid.n}],
          Without(net.inbox, k) + Deliveries(CrossThreadSearch(net.envs[d.dest].ctx), d.msg),
          net.log + [Event(d.dest, d.msg.uid.n)])
  {
  }

  /** The message a choice picks: the one at that position, or the oldest when the position is past the end. */
  function Pick(inbox: seq<Delivery>, choice: nat): (k: nat)
    requires 0 < |inbox|
    ensures k < |inbox|
  {
    if choice < |inbox| then choice else 0
  }

  /**
   Deliver messages in the order `choices` picks them, stopping when the
   inbox is empty. Every delivery order is some sequence of choices.
   */
  function Run(net: Net, choices: seq<nat>): (net': Net)
    requires WellFormed(net)
    ensures WellFormed(net') && net'.envs == net.envs
    ensures |net.log| <= |net'.log| <= |net.log| + |choices|
    ensures |choices| == 0 || |net.inbox| == 0 ==> net' == net
    decreases |choices|
  {
    if |choices| == 0 || |net.inbox| == 0 then net
    else
      var k := Pick(net.inbox, choices[0]);
      DeliverEffect(net, k);
      Run(Deliver(net, k), choices[1..])
  }

  /** Deliveries only append to the log: what has been processed stays recorded, in order. */
  lemma {:induction false} RunExtendsLog(net: Net, choices: seq<nat>)
    requires WellFormed(net)
    ensures net.log <= Run(net, choices).log
    decreases |choices|
  {
    if |choices| > 0 && |net.inbox| > 0 {
      var k := Pick(net.inbox, choices[0]);
      DeliverEffect(net, k);
      RunExtendsLog(Deliver(net, k), choices[1..]);
    }
  }

  // ---------------------------------------------------------------------
  // At most once per context
  // ---------------------------------------------------------------------

  /**
   Every processing event is remembered in its context's set, and no event
   with a nonzero identifier happened twice.
   */
  ghost predicate Inv(net: Net) {
    && WellFormed(net)
    && (forall i :: 0 <= i < |net.log| ==>
          net.log[i].node < |net.seen| && net.log[i].uid in net.seen[net.log[i].node])
    && (forall i, j :: 0 <= i < j < |net.log| && net.log[i] == net.log[j] ==> net.log[i].uid == 0)
  }

  /** Every delivery keeps the invariant. */
  lemma DeliverKeepsInv(net: Net, k: nat)
    requires Inv(net) && k < |net.inbox|
    ensures Inv(Deliver(net, k))
  {
    var d := net.inbox[k];
    DeliverEffect(net, k);
    if d.dest < |net.envs| && IsValidMessageEvent(Some(d.msg), net.seen[d.dest]) {
      var e := Event(d.dest, d.msg.uid.n);
      forall i | 0 <= i < |net.log| && net.log[i] == e
        ensures e.uid == 0
      {
        assert e.uid in net.seen[d.dest];
      }
    }
  }

  /** Any order of deliveries keeps the invariant. */
  lemma {:induction false} RunKeepsInv(net: Net, choices: seq<nat>)
    requires Inv(net)
    ensures Inv(Run(net, choices))
    decreases |choices|
  {
    if |choices| > 0 && |net.inbox| > 0 {
      DeliverKeepsInv(net, Pick(net.inbox, choices[0]));
      RunKeepsInv(Deliver(net, Pick(net.inbox, choices[0])), choices[1..]);
    }
  }

  /** The contexts that processed `uid`, in processing order. */
  function Processors(log: seq<Event>, uid: int): (ns: seq<Handle>)
    ensures forall n :: n in ns <==> Event(n, uid) in log
    decreases |log|
  {
    if |log| == 0 then []
    else (if log[0].uid == uid then [log[0].node] else []) + Processors(log[1..], uid)
  }

  /** No handle occurs twice in `ns`. */
  ghost predicate Distinct(ns: seq<Handle>) {
    forall i, j :: 0 <= i < j < |ns| ==> ns[i] != ns[j]
  }

  lemma {:induction false} ProcessorsDistinct(log: seq<Event>, uid: int)
    requires uid != 0
    requires forall i, j :: 0 <= i < j < |log| && log[i] == log[j] ==> log[i].uid == 0
    ensures Distinct(Processors(log, uid))
    decreases |log|
  {
    if |log| > 0 {
      var tail := log[1..];
      assert forall i, j :: 0 <= i < j < |tail| && tail[i] == tail[j] ==> tail[i].uid == 0 by {
        forall i, j | 0 <= i < j < |tail| && tail[i] == tail[j] ensures tail[i].uid == 0 {
          assert log[i + 1] == log[j + 1];
        }
      }
      ProcessorsDistinct(tail, uid);
    }
  }

  /** A sequence of distinct handles below `n` is at most `n` long. */
  lemma {:induction false} DistinctBelowBound(ns: seq<Handle>, n: nat)
    requires Distinct(ns)
    requires forall k :: 0 <= k < |ns| ==> ns[k] < n
    ensures |ns| <= n
    decreases |ns|
  {
    if |ns| > 0 {
      var last := ns[|ns| - 1];
      var init := ns[..|ns| - 1];
      // Renumber `init` into the handles below n - 1 by swapping `last` with n - 1.
      var renum := seq(|init|, k requires 0 <= k < |init| => if init[k] == n - 1 then last else init[k]);
      forall k | 0 <= k < |renum| ensures renum[k] < n - 1 {
        assert init[k] != last;
        assert init[k] == ns[k];
      }
      forall i, j | 0 <= i < j < |renum| ensures renum[i] != renum[j] {
        assert init[i] == ns[i] && init[j] == ns[j];
      }
      DistinctBelowBound(renum, n - 1);
    }
  }

  /**
   Whatever order messages are delivered in, starting from no processing,
   each context processes a query with a nonzero identifier at most once, so
   the query is processed at most as many times as there are contexts.
   */
  lemma AtMostOncePerContext(net: Net, choices: seq<nat>, uid: int)
    requires WellFormed(net) && net.log == []
    requires uid != 0
    ensures Distinct(Processors(Run(net, choices).log, uid))
    ensures |Processors(Run(net, choices).log, uid)| <= |net.envs|
  {
    RunKeepsInv(net, choices);
    var log := Run(net, choices).log;
    ProcessorsDistinct(log, uid);
    var ns := Processors(log, uid);
    forall k | 0 <= k < |ns| ensures ns[k] < |net.envs| {
      assert Event(ns[k], uid) in log;
    }
    DistinctBelowBound(ns, |net.envs|);
  }

  // ---------------------------------------------------------------------
  // One query's flood: it drains, and it reaches every neighbour
  // ---------------------------------------------------------------------

  /** A well-formed query with a nonzero identifier, the kind the dedup guard stops. */
  ghost predicate Dedupable(msg: Message) {
    msg.tag == MessageType && msg.uid.Number? && msg.uid.n != 0
  }

  /** Every message in flight is `msg`: the flood of one query. */
  ghost predicate Carries(net: Net, msg: Message) {
    forall d :: d in net.inbox ==> d.msg == msg
  }

  /** How many messages context `env` forwards when it processes a query. */
  function Degree(env: Env): nat {
    |CrossThreadSearch(env.ctx)|
  }

  /** The forwards still owed by the first `n` contexts: the degrees of those that have not handled `uid`. */
  function Owed(envs: seq<Env>, seen: seq<set<int>>, uid: int, n: nat): (owed: nat)
    requires n <= |envs| == |seen|
  {
    if n == 0 then 0
    else Owed(envs, seen, uid, n - 1) + (if uid in seen[n - 1] then 0 else Degree(envs[n - 1]))
  }

  /** Messages in flight plus forwards still owed. */
  function Potential(net: Net, uid: int): (p: nat)
    requires WellFormed(net)
  {
    |net.inbox| + Owed(net.envs, net.seen, uid, |net.envs|)
  }

  /** Marking context `d` as having handled `uid` settles what it owed. */
  lemma {:induction false} OwedAfterMark(envs: seq<Env>, seen: seq<set<int>>, uid: int, d: nat, n: nat)
    requires n <= |envs| == |seen| && d < |seen| && uid !in seen[d]
    ensures Owed(envs, seen[d := seen[d] + {uid}], uid, n) + (if d < n then Degree(envs[d]) else 0)
      == Owed(envs, seen, uid, n)
  {
    if n > 0 {
      OwedAfterMark(envs, seen, uid, d, n - 1);
    }
  }

  /** Every delivery in the flood of one query strictly lowers the potential. */
  lemma DeliverLowersPotential(net: Net, k: nat, msg: Message)
    requires WellFormed(net) && k < |net.inbox| && Carries(net, msg) && Dedupable(msg)
    ensures Carries(Deliver(net, k), msg)
    ensures Potential(Deliver(net, k), msg.uid.n) < Potential(net, msg.uid.n)
  {
    var d := net.inbox[k];
    var u := msg.uid.n;
    if d.dest < |net.envs| {
      var st := HandleMessage(Some(d.msg), net.seen[d.dest], net.envs[d.dest]);
      if st.Processed? {
        OwedAfterMark(net.envs, net.seen, u, d.dest, |net.envs|);
      }
    }
  }

  /** However the messages are ordered, a flood of one such query drains within `Potential` deliveries. */
  lemma {:induction false} FloodDrains(net: Net, choices: seq<nat>, msg: Message)
    requires WellFormed(net) && Carries(net, msg) && Dedupable(msg)
    requires Potential(net, msg.uid.n) <= |choices|
    ensures Run(net, choices).inbox == []
    ensures Carries(Run(net, choices), msg)
    decreases |choices|
  {
    if |net.inbox| > 0 {
      var k := Pick(net.inbox, choices[0]);
      DeliverLowersPotential(net, k, msg);
      FloodDrains(Deliver(net, k), choices[1..], msg);
    }
  }

  /** Context `h` has handled the query, or the query is on its way there. */
  ghost predicate Settled(net: Net, msg: Message, h: Handle) {
    h < |net.seen| && msg.uid.Number? && (msg.uid.n in net.seen[h] || Delivery(h, msg) in net.inbox)
  }

  /** Every neighbour of every context that processed the query is settled. */
  ghost predicate Closed(net: Net, msg: Message) {
    forall i :: 0 <= i < |net.log| ==>
      && net.log[i].node < |net.envs|
      && forall t :: t in CrossThreadSearch(net.envs[net.log[i].node].ctx) && t.handle < |net.envs| ==>
           Settled(net, msg, t.handle)
  }

  /** Only a processing event puts the identifier in a context's set. */
  ghost predicate Recorded(net: Net, msg: Message) {
    forall h :: 0 <= h < |net.seen| && msg.uid.Number? && msg.uid.n in net.seen[h] ==> Event(h, msg.uid.n) in net.log
  }

  /** The flood invariant. */
  ghost predicate FloodInv(net: Net, msg: Message) {
    WellFormed(net) && Carries(net, msg) && Closed(net, msg) && Recorded(net, msg)
  }

  /** A settled context stays settled. */
  lemma DeliverKeepsSettled(net: Net, k: nat, msg: Message, h: Handle)
    requires WellFormed(net) && k < |net.inbox| && Carries(net, msg) && Dedupable(msg)
    requires Settled(net, msg, h)
    ensures Settled(Deliver(net, k), msg, h)
  {
    var d := net.inbox[k];
    if d.dest < |net.envs| {
      var st := HandleMessage(Some(d.msg), net.seen[d.dest], net.envs[d.dest]);
      if st.Processed? {
        assert Deliver(net, k).seen[d.dest] == net.seen[d.dest] + {msg.uid.n};
      }
    }
  }

  /** The deliveries of a fan-out reach each of its targets. */
  lemma DeliveriesReachTargets(targets: seq<Target>, msg: Message)
    ensures forall t :: t in targets ==> Delivery(t.handle, msg) in Deliveries(targets, msg)
  {
    var ds := Deliveries(targets, msg);
    forall t | t in targets ensures Delivery(t.handle, msg) in ds {
      var k :| 0 <= k < |targets| && targets[k] == t;
      assert ds[k] == Delivery(t.handle, msg);
    }
  }

  /** Every delivery keeps the flood invariant. */
  lemma DeliverKeepsFloodInv(net: Net, k: nat, msg: Message)
    requires FloodInv(net, msg) && k < |net.inbox| && Dedupable(msg)
    ensures FloodInv(Deliver(net, k), msg)
  {
    var net' := Deliver(net, k);
    var d := net.inbox[k];
    var u := msg.uid.n;
    DeliverLowersPotential(net, k, msg);
    forall h | Settled(net, msg, h) ensures Settled(net', msg, h) {
      DeliverKeepsSettled(net, k, msg, h);
    }
    if d.dest < |net.envs| {
      var st := HandleMessage(Some(d.msg), net.seen[d.dest], net.envs[d.dest]);
      if st.Processed? {
        assert net'.log == net.log + [Event(d.dest, u)];
        assert net'.inbox == Without(net.inbox, k) + Deliveries(st.targets, msg);
        DeliveriesReachTargets(st.targets, msg);
        forall t | t in CrossThreadSearch(net.envs[d.dest].ctx) && t.handle < |net.envs|
          ensures Settled(net', msg, t.handle)
        {
          assert Delivery(t.handle, msg) in Deliveries(st.targets, msg);
        }
      }
    }
  }

  /** Any order of deliveries keeps the flood invariant. */
  lemma {:induction false} RunKeepsFloodInv(net: Net, choices: seq<nat>, msg: Message, origin: Handle)
    requires FloodInv(net, msg) && Dedupable(msg) && Settled(net, msg, origin)
    ensures FloodInv(Run(net, choices), msg) && Settled(Run(net, choices), msg, origin)
    decreases |choices|
  {
    if |choices| > 0 && |net.inbox| > 0 {
      var k := Pick(net.inbox, choices[0]);
      DeliverKeepsFloodInv(net, k, msg);
      DeliverKeepsSettled(net, k, msg, origin);
      RunKeepsFloodInv(Deliver(net, k), choices[1..], msg, origin);
    }
  }

  /** The start of a flood: no context has handled anything, and the originator has posted the query to itself. */
  function Originate(envs: seq<Env>, origin: Handle, msg: Message): (net: Net)
    ensures WellFormed(net) && Carries(net, msg)
    ensures net.log == [] && net.inbox == [Delivery(origin, msg)]
  {
    Net(envs, seq(|envs|, _ => {}), [Delivery(origin, msg)], [])
  }

  /** A drained flood: the processing contexts are closed under taking neighbours. */
  lemma DrainedFloodIsClosed(net: Net, msg: Message)
    requires FloodInv(net, msg) && Dedupable(msg) && net.inbox == []
    ensures forall e :: e in net.log ==>
      e.node < |net.envs| &&
      forall t :: t in CrossThreadSearch(net.envs[e.node].ctx) && t.handle < |net.envs| ==>
        Event(t.handle, msg.uid.n) in net.log
  {
    forall e | e in net.log
      ensures e.node < |net.envs|
      ensures forall t :: t in CrossThreadSearch(net.envs[e.node].ctx) && t.handle < |net.envs| ==>
        Event(t.handle, msg.uid.n) in net.log
    {
      var i :| 0 <= i < |net.log| && net.log[i] == e;
      assert net.log[i].node < |net.envs|;
      forall t | t in CrossThreadSearch(net.envs[e.node].ctx) && t.handle < |net.envs|
        ensures Event(t.handle, msg.uid.n) in net.log
      {
        assert Settled(net, msg, t.handle);
      }
    }
  }

  /**
   Once the flood of a query with a nonzero identifier has drained, in
   whatever order its messages were delivered, the originator has processed
   it, and every neighbour of a context that processed it has processed it
   too: it has reached every context reachable from the originator.
   */
  lemma FloodReachesNeighbours(envs: seq<Env>, origin: Handle, msg: Message, choices: seq<nat>)
    requires origin < |envs| && Dedupable(msg)
    requires Potential(Originate(envs, origin, msg), msg.uid.n) <= |choices|
    ensures var net := Run(Originate(envs, origin, msg), choices);
      && net.inbox == []
      && Event(origin, msg.uid.n) in net.log
      && forall e :: e in net.log ==>
           e.node < |envs| &&
           forall t :: t in CrossThreadSearch(envs[e.node].ctx) && t.handle < |envs| ==>
             Event(t.handle, msg.uid.n) in net.log
  {
    var net0 := Originate(envs, origin, msg);
    assert Settled(net0, msg, origin);
    RunKeepsFloodInv(net0, choices, msg, origin);
    FloodDrains(net0, choices, msg);
    var net := Run(net0, choices);
    assert Settled(net, msg, origin);
    DrainedFloodIsClosed(net, msg);
  }

  // ---------------------------------------------------------------------
  // An identifier of 0 is never deduplicated: the flood cycles forever
  // ---------------------------------------------------------------------

  /** A top page (handle 0) embedding one frame (handle 1), each the other's neighbour. */
  function PageWithFrame(store: seq<Records.Record>, counts: map<string, int>): (envs: seq<Env>)
    ensures MutualPair(envs)
    ensures CrossThreadSearch(envs[0].ctx) == [ToFrame(1)]
    ensures CrossThreadSearch(envs[1].ctx) == [ToParent(0)]
  {
    [Env(Context([], true, [1], true, 0), store, counts), Env(Context([], true, [], false, 0), store, counts)]
  }

  /** `n` deliveries, each of the oldest message. */
  function Oldest(n: nat): (cs: seq<nat>)
    ensures |cs| == n && forall k :: 0 <= k < n ==> cs[k] == 0
  {
    seq(n, _ => 0)
  }

  /**
   With an identifier of 0 the page and its frame hand the query back and
   forth: after any number `2 * rounds` of deliveries it has been processed
   `2 * rounds` times, and it is still in flight.
   */
  lemma ZeroUidFloodNeverDrains(store: seq<Records.Record>, counts: map<string, int>, msg: Message, rounds: nat)
    requires msg.tag == MessageType && msg.uid == Number(0)
    ensures var net := Run(Originate(PageWithFrame(store, counts), 0, msg), Oldest(2 * rounds));
      && |net.log| == 2 * rounds
      && |net.inbox| == 1 && net.inbox[0].msg == msg
      && |Processors(net.log, 0)| == 2 * rounds
  {
    var net0 := Originate(PageWithFrame(store, counts), 0, msg);
    ZeroUidCycles(net0, msg, 0, 2 * rounds);
  }

  /** The contexts of `PageWithFrame`: a top page embedding frame 1, and that frame. */
  ghost predicate MutualPair(envs: seq<Env>) {
    && |envs| == 2
    && envs[0].ctx == Context([], true, [1], true, 0)
    && envs[1].ctx == Context([], true, [], false, 0)
  }

  /** Running from a one-message inbox: one delivery of that message, then the rest. */
  lemma RunOneStep(net: Net, choices: seq<nat>)
    requires WellFormed(net) && |net.inbox| == 1
    requires 1 <= |choices| && choices[0] == 0
    ensures Run(net, choices) == Run(Deliver(net, 0), choices[1..])
  {
  }

  /** A query with identifier 0 at a context with one neighbour: processed there, and passed on to the neighbour. */
  lemma ZeroUidStep(net: Net, msg: Message, from: Handle, to: Handle)
    requires msg.tag == MessageType && msg.uid == Number(0)
    requires WellFormed(net) && from < |net.envs|
    requires |CrossThreadSearch(net.envs[from].ctx)| == 1 && CrossThreadSearch(net.envs[from].ctx)[0].handle == to
    requires net.inbox == [Delivery(from, msg)]
    ensures Deliver(net, 0).envs == net.envs
    ensures Deliver(net, 0).inbox == [Delivery(to, msg)]
    ensures Deliver(net, 0).log == net.log + [Event(from, 0)]
  {
    DeliverEffect(net, 0);
    assert Without(net.inbox, 0) == [];
  }

  /** In the pair, context `h` forwards to the other context and to it only. */
  lemma MutualPairNeighbour(envs: seq<Env>, h: Handle)
    requires MutualPair(envs) && h < 2
    ensures |CrossThreadSearch(envs[h].ctx)| == 1 && CrossThreadSearch(envs[h].ctx)[0].handle == 1 - h
  {
    var ctx := envs[h].ctx;
    if h == 0 {
      assert ctx.iframes[0] == 1;
    } else {
      assert ctx.parent == 0;
    }
  }

  /** Delivering the oldest message `n` times from a one-message inbox: once, then `n - 1` times. */
  lemma RunOldestStep(net: Net, n: nat)
    requires WellFormed(net) && |net.inbox| == 1 && 0 < n
    ensures Run(net, Oldest(n)) == Run(Deliver(net, 0), Oldest(n - 1))
  {
    RunOneStep(net, Oldest(n));
    assert Oldest(n)[1..] == Oldest(n - 1);
  }

  /** The cycle behind `ZeroUidFloodNeverDrains`, from any state of the pair. */
  lemma {:induction false} ZeroUidCycles(net: Net, msg: Message, h: Handle, n: nat)
    requires msg.tag == MessageType && msg.uid == Number(0)
    requires WellFormed(net) && MutualPair(net.envs) && h < 2
    requires net.inbox == [Delivery(h, msg)]
    ensures var r := Run(net, Oldest(n));
      && |r.log| == |net.log| + n
      && |Processors(r.log, 0)| == |Processors(net.log, 0)| + n
      && |r.inbox| == 1 && r.inbox[0].msg == msg
    decreases n
  {
    if n > 0 {
      MutualPairNeighbour(net.envs, h);
      ZeroUidStep(net, msg, h, 1 - h);
      RunOldestStep(net, n);
      ProcessorsAppend(net.log, Event(h, 0), 0);
      ZeroUidCycles(Deliver(net, 0), msg, 1 - h, n - 1);
    }
  }

  /** Appending an event lists its context last when it carries the identifier. */
  lemma {:induction false} ProcessorsAppend(log: seq<Event>, e: Event, uid: int)
    ensures Processors(log + [e], uid) == Processors(log, uid) + (if e.uid == uid then [e.node] else [])
    decreases |log|
  {
    if |log| > 0 {
      assert (log + [e])[1..] == log[1..] + [e];
      ProcessorsAppend(log[1..], e, uid);
    }
  }
}
