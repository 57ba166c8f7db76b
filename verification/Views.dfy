/**
 * The system as seen from one of its chains: a legal run of that chain, in which a delivery
 * is a dispatch of `receive_student`. What holds for the runs of one chain holds for both
 * chains of the system, and so does what the web page shows of them.
 */
module Views {
  import opened Types
  import opened PalletSpec
  import opened Consistency
  import opened TwoChains
  import opened Journeys
  import opened Board
  import Chain

  datatype Side = University | Company {
    function StorageOf(y: System): Storage {
      match this
      case University => y.a
      case Company => y.b
    }

    /** The dispatch that an event is for this chain. */
    ghost function StepOf(net: Network, x: Traced, event: Event): Chain.Step {
      match this
      case University => StepOnA(x.sys, event)
      case Company => StepOnB(net, x.sys, x.ledger, event)
    }
  }

  /** The dispatches that a run consists of for one chain. */
  ghost function Steps(side: Side, net: Network, events: seq<Event>): (steps: seq<Chain.Step>)
    ensures |steps| == |events|
  {
    seq(|events|, t requires 0 <= t < |events| => side.StepOf(net, At(net, events, t), events[t]))
  }

  /** The states that a chain goes through. */
  ghost function States(side: Side, net: Network, events: seq<Event>): (states: seq<Storage>)
    ensures |states| == |events| + 1
  {
    seq(|events| + 1, t requires 0 <= t <= |events| => side.StorageOf(At(net, events, t).sys))
  }

  lemma DispatchAt(side: Side, net: Network, events: seq<Event>, t: nat)
    requires LegalPlay(net, events) && t < |events|
    ensures var s, step := States(side, net, events)[t], Steps(side, net, events)[t];
            Chain.Legal(net.cfg, s, step) && Chain.After(net.cfg, s, step).storage == States(side, net, events)[t + 1]
  {
    CoherentThroughout(net, events, t);
    AtNext(net, events, t);
    EventIsDispatch(net, At(net, events, t).sys, At(net, events, t).ledger, events[t]);
  }

  lemma ChainNext(side: Side, net: Network, events: seq<Event>, t: nat)
    requires LegalPlay(net, events) && 0 < t <= |events|
    requires Chain.At(net.cfg, GENESIS, Steps(side, net, events), t - 1) == States(side, net, events)[t - 1]
    ensures Chain.At(net.cfg, GENESIS, Steps(side, net, events), t) == States(side, net, events)[t]
  {
    DispatchAt(side, net, events, t - 1);
    Chain.AtLast(net.cfg, GENESIS, Steps(side, net, events), t);
  }

  lemma {:induction false} ChainAt(side: Side, net: Network, events: seq<Event>, t: nat)
    requires LegalPlay(net, events) && t <= |events|
    ensures Chain.At(net.cfg, GENESIS, Steps(side, net, events), t) == States(side, net, events)[t]
  {
    if t > 0 {
      ChainAt(side, net, events, t - 1);
      ChainNext(side, net, events, t);
    } else {
      AtStart(net, events);
    }
  }

  /** The states of a chain are those of a legal run from the empty storage. */
  ghost predicate RunsThrough(cfg: Config, steps: seq<Chain.Step>, states: seq<Storage>) {
    && Chain.LegalRun(cfg, GENESIS, steps) && |states| == |steps| + 1
    && forall t :: 0 <= t <= |steps| ==> states[t] == Chain.At(cfg, GENESIS, steps, t)
  }

  /** A legal run of the system is, seen from either chain, a legal run of that chain. */
  lemma EachChainRuns(side: Side, net: Network, events: seq<Event>)
    requires LegalPlay(net, events)
    ensures RunsThrough(net.cfg, Steps(side, net, events), States(side, net, events))
  {
    var steps := Steps(side, net, events);
    forall t | 0 <= t <= |events| ensures States(side, net, events)[t] == Chain.At(net.cfg, GENESIS, steps, t) {
      ChainAt(side, net, events, t);
    }
    forall t | 0 <= t < |events| ensures Chain.Legal(net.cfg, Chain.Run(net.cfg, GENESIS, steps[..t]), steps[t]) {
      ChainAt(side, net, events, t);
      DispatchAt(side, net, events, t);
    }
  }

  /** The feed shows a chain of the running system, and no id is read before the counter. */
  ghost predicate Follows(f: Feed, side: Side, net: Network, events: seq<Event>) {
    f.history == States(side, net, events) && CounterFirst(f)
  }

  /**
   * The web page next to the running system: on either chain, deliveries included, the list
   * shows exactly the students that were live from the reading of the chain's counter to
   * their own reading.
   */
  lemma BoardShowsEitherChain(side: Side, net: Network, events: seq<Event>, f: Feed)
    requires LegalPlay(net, events) && Follows(f, side, net, events) && Scan(f).Some?
    ensures ShowsTheSteady(f)
  {
    EachChainRuns(side, net, events);
    GenesisInvariant(net.cfg);
    ScanShowsExactlyTheSteady(f, net.cfg, GENESIS, Steps(side, net, events));
  }
}
