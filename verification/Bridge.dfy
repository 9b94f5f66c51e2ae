/**
 The gateway bridge: registration, health, selection and failover. Health keeps
 only its class; response times and loss are reals; the clock is a parameter.
 */
module Bridge {
  import opened Common

  type NodeNum = nat

  datatype Health = Healthy | Degraded | Offline

  function Rank(h: Health): nat {
    match h case Healthy => 0 case Degraded => 1 case Offline => 2
  }

  datatype Gateway = Gateway(node: NodeNum, priority: nat, health: Health, failures: nat, loss: real) {
    predicate Available() { health != Offline }
  }

  datatype Event = Failover(from: Option<NodeNum>, to: NodeNum) | StatusChange(node: NodeNum, health: Health)

  /** Everything that ever happened to gateways: a registration, or an event emitted. */
  datatype Logged = Registered(node: NodeNum) | Emitted(event: Event)

  datatype Config = Config(responseLimit: real, lossLimit: real, offlineThreshold: nat, cooldown: nat)

  /** `events` is what has not been drained yet; `log` is the whole history. */
  datatype State = State(
    gateways: seq<Gateway>, active: Option<NodeNum>, lastFailover: Option<nat>,
    events: seq<Event>, config: Config, log: seq<Logged>)

  function Start(config: Config): State {
    State([], None, None, [], config, [])
  }

  // ------------------------------------------------------------- operations

  function IndexOf(gs: seq<Gateway>, node: NodeNum): (r: Option<nat>)
    ensures r.Some? ==> r.value < |gs| && gs[r.value].node == node
    ensures r.None? ==> forall g | g in gs :: g.node != node
  {
    if gs == [] then None
    else if gs[0].node == node then Some(0)
    else
      match IndexOf(gs[1..], node)
      case None => None
      case Some(i) => Some(i + 1)
  }

  function Others(gs: seq<Gateway>, node: NodeNum): (r: seq<Gateway>)
    ensures forall g :: g in r <==> g in gs && g.node != node
  {
    if gs == [] then []
    else
      assert gs == [gs[0]] + gs[1..];
      if gs[0].node == node then Others(gs[1..], node) else [gs[0]] + Others(gs[1..], node)
  }

  function Emit(s: State, e: Event): State {
    s.(events := s.events + [e], log := s.log + [Emitted(e)])
  }

  /** Whether `a` is preferred to `b`: healthier, or equally healthy with a lower priority value. */
  predicate Better(a: Gateway, b: Gateway) {
    Rank(a.health) < Rank(b.health) || (Rank(a.health) == Rank(b.health) && a.priority < b.priority)
  }

  /** Best available gateway, the first in registration order among equals. */
  function Best(gs: seq<Gateway>): Option<Gateway> {
    if gs == [] then None
    else
      var best, g := Best(Init(gs)), Last(gs);
      if !g.Available() then best
      else if best.None? || Better(g, best.value) then Some(g)
      else best
  }

  function Selected(s: State): Option<NodeNum> {
    match Best(s.gateways)
    case None => None
    case Some(g) => Some(g.node)
  }

  function Added(s: State, node: NodeNum, priority: nat): State {
    if IndexOf(s.gateways, node).Some? then s
    else s.(gateways := s.gateways + [Gateway(node, priority, Healthy, 0, 0.0)], log := s.log + [Registered(node)])
  }

  function Removed(s: State, node: NodeNum): State {
    s.(gateways := Others(s.gateways, node), active := if s.active == Some(node) then None else s.active)
  }

  function FailedOver(s: State, now: nat): State {
    var next := Selected(s);
    if next == s.active then s
    else
      var s' := s.(active := next, lastFailover := Some(now));
      if next.Some? then Emit(s', Failover(s.active, next.value)) else s'
  }

  predicate NeedsSelection(s: State) {
    s.active.None? || !exists g | g in s.gateways :: g.node == s.active.value && g.Available()
  }

  predicate CoolingDown(s: State, now: nat) {
    s.lastFailover.Some? && Elapsed(s.lastFailover.value, now) < s.config.cooldown
  }

  function EnsuredActive(s: State, now: nat): State {
    if NeedsSelection(s) && !CoolingDown(s, now) then FailedOver(s, now) else s
  }

  /** Replaces a gateway, announcing the change if its health class differs. */
  function Updated(s: State, i: nat, g: Gateway): State
    requires i < |s.gateways|
  {
    var s' := if s.gateways[i].health != g.health then Emit(s, StatusChange(g.node, g.health)) else s;
    s'.(gateways := s.gateways[i := g])
  }

  function Succeeded(s: State, node: NodeNum, responseMs: real): State {
    match IndexOf(s.gateways, node)
    case None => s
    case Some(i) =>
      var g := s.gateways[i];
      var loss := g.loss * 0.5;
      var bad := responseMs > s.config.responseLimit || loss > s.config.lossLimit;
      Updated(s, i, g.(failures := 0, loss := loss, health := if bad then Degraded else Healthy))
  }

  /** A gateway after one more failed check. */
  function Struck(config: Config, g: Gateway): (g': Gateway)
    ensures g'.node == g.node && g'.failures == g.failures + 1
    ensures g'.health == Offline <==> g'.failures >= config.offlineThreshold
  {
    g.(failures := g.failures + 1, loss := g.loss * 0.7 + 0.3,
       health := if g.failures + 1 >= config.offlineThreshold then Offline else Degraded)
  }

  function Failed(s: State, node: NodeNum, now: nat): State {
    match IndexOf(s.gateways, node)
    case None => s
    case Some(i) =>
      var g, g' := s.gateways[i], Struck(s.config, s.gateways[i]);
      var s' := Updated(s, i, g');
      if g.Available() && !g'.Available() && s.active == Some(node) then FailedOver(s', now) else s'
  }

  function LossSet(s: State, node: NodeNum, ratio: real): State {
    match IndexOf(s.gateways, node)
    case None => s
    case Some(i) =>
      var clamped := if ratio < 0.0 then 0.0 else if ratio > 1.0 then 1.0 else ratio;
      s.(gateways := s.gateways[i := s.gateways[i].(loss := clamped)])
  }

  // ---------------------------------------------------------------- selection

  /**
   The selection is not offline; it is healthy if any gateway is; and within its
   health class it has the lowest priority value, and is the first to have it.
   */
  ghost predicate IsBest(gs: seq<Gateway>, k: nat) {
    && k < |gs| && gs[k].health != Offline
    && forall j | 0 <= j < |gs| && gs[j].health != Offline ::
         && (gs[k].health == Healthy || gs[j].health == Degraded)
         && (gs[j].health == gs[k].health ==> gs[k].priority <= gs[j].priority)
         && (gs[j].health == gs[k].health && j < k ==> gs[k].priority < gs[j].priority)
  }

  /** Selection is correct and complete: the best available gateway if there is one, none only if there is none. */
  lemma {:induction false} BestIsBest(gs: seq<Gateway>) returns (k: nat)
    ensures Best(gs).None? <==> forall g | g in gs :: !g.Available()
    ensures Best(gs).Some? ==> IsBest(gs, k) && gs[k] == Best(gs).value
    decreases |gs|
  {
    k := 0;
    if gs == [] {
    } else {
      var init, g := Init(gs), Last(gs);
      k := BestIsBest(init);
      assert gs == init + [g];
      assert forall j | 0 <= j < |init| :: init[j] == gs[j] && init[j] in init;
      if g.Available() && (Best(init).None? || Better(g, Best(init).value)) {
        k := |init|;
      }
    }
  }

  // ---------------------------------------------------------------- invariant

  ghost predicate DistinctNodes(gs: seq<Gateway>) {
    forall i, j | 0 <= i < j < |gs| :: gs[i].node != gs[j].node
  }

  ghost predicate ActiveIsAvailable(s: State) {
    s.active.Some? ==> exists g :: g in s.gateways && g.node == s.active.value && g.Available()
  }

  /** Health of a node according to the events since its last registration. */
  function Replayed(log: seq<Logged>, node: NodeNum): Option<Health> {
    if log == [] then None
    else
      match Last(log)
      case Registered(n) => if n == node then Some(Healthy) else Replayed(Init(log), node)
      case Emitted(StatusChange(n, h)) => if n == node then Some(h) else Replayed(Init(log), node)
      case Emitted(Failover(_, _)) => Replayed(Init(log), node)
  }

  ghost predicate EventsTell(s: State) {
    forall g | g in s.gateways :: Replayed(s.log, g.node) == Some(g.health)
  }

  ghost predicate Inv(s: State) {
    DistinctNodes(s.gateways) && ActiveIsAvailable(s) && EventsTell(s)
  }

  /** Offline means: as many failures in a row as the threshold. */
  ghost predicate OfflineByCount(s: State) {
    forall g | g in s.gateways :: g.health == Offline <==> g.failures >= s.config.offlineThreshold
  }

  lemma ReplayedAppend(log: seq<Logged>, x: Logged, node: NodeNum)
    ensures Replayed(log + [x], node)
            == match x
               case Registered(n) => if n == node then Some(Healthy) else Replayed(log, node)
               case Emitted(StatusChange(n, h)) => if n == node then Some(h) else Replayed(log, node)
               case Emitted(Failover(_, _)) => Replayed(log, node)
  {
    assert Init(log + [x]) == log;
  }

  lemma FailoverTells(s: State, e: Event)
    requires EventsTell(s) && e.Failover?
    ensures EventsTell(Emit(s, e))
  {
    forall g | g in s.gateways ensures Replayed(s.log + [Emitted(e)], g.node) == Some(g.health) {
      ReplayedAppend(s.log, Emitted(e), g.node);
    }
  }

  /** The selection is an available gateway, and is missing only if none is available. */
  lemma SelectedIsAvailable(s: State)
    ensures Selected(s).Some? ==> exists g :: g in s.gateways && g.node == Selected(s).value && g.Available()
    ensures Selected(s).None? <==> forall g | g in s.gateways :: !g.Available()
  {
    var k := BestIsBest(s.gateways);
    assert Selected(s).Some? ==> s.gateways[k] in s.gateways;
  }

  /** Failing over keeps the gateways and their story, and leaves an available gateway active, if any is. */
  lemma FailoverKeeps(s: State, now: nat)
    requires DistinctNodes(s.gateways) && EventsTell(s)
    ensures Inv(FailedOver(s, now)) && FailedOver(s, now).active == Selected(s)
  {
    hide EventsTell, DistinctNodes, Selected;
    SelectedIsAvailable(s);
    if Selected(s) != s.active {
      var s' := s.(active := Selected(s), lastFailover := Some(now));
      assert EventsTell(s') by { EventsOnly(s, s'); }
      if Selected(s).Some? {
        FailoverTells(s', Failover(s.active, Selected(s).value));
      }
    }
  }

  lemma EventsOnly(s: State, s': State)
    requires EventsTell(s) && s'.log == s.log && s'.gateways == s.gateways
    ensures EventsTell(s')
  {
  }

  lemma AddKeeps(s: State, node: NodeNum, priority: nat)
    requires Inv(s)
    ensures Inv(Added(s, node, priority))
  {
    if IndexOf(s.gateways, node).None? {
      var s' := Added(s, node, priority);
      forall g | g in s'.gateways ensures Replayed(s'.log, g.node) == Some(g.health) {
        ReplayedAppend(s.log, Registered(node), g.node);
      }
      assert forall i | 0 <= i < |s.gateways| :: s.gateways[i] in s.gateways;
      assert forall g | g in s.gateways :: g in s'.gateways;
    }
  }

  lemma {:induction false} OthersDistinct(gs: seq<Gateway>, node: NodeNum)
    requires DistinctNodes(gs)
    ensures DistinctNodes(Others(gs, node))
  {
    if gs == [] {
    } else {
      OthersDistinct(gs[1..], node);
      var rest := Others(gs[1..], node);
      assert forall j | 0 <= j < |rest| :: rest[j] in rest;
    }
  }

  lemma RemoveKeeps(s: State, node: NodeNum)
    requires Inv(s)
    ensures Inv(Removed(s, node))
  {
    OthersDistinct(s.gateways, node);
  }

  /** Replacing a gateway by one of the same node, with its change announced. */
  lemma UpdateKeeps(s: State, i: nat, g: Gateway)
    requires DistinctNodes(s.gateways) && EventsTell(s) && i < |s.gateways| && g.node == s.gateways[i].node
    ensures DistinctNodes(Updated(s, i, g).gateways) && EventsTell(Updated(s, i, g))
  {
    var s' := Updated(s, i, g);
    assert forall j | 0 <= j < |s.gateways| :: s.gateways[j] in s.gateways;
    forall x | x in s'.gateways ensures Replayed(s'.log, x.node) == Some(x.health) {
      var j :| 0 <= j < |s'.gateways| && s'.gateways[j] == x;
      ReplayedAppend(s.log, Emitted(StatusChange(g.node, g.health)), x.node);
    }
  }

  lemma UpdateKeepsActive(s: State, i: nat, g: Gateway)
    requires Inv(s) && i < |s.gateways| && g.node == s.gateways[i].node
    requires g.Available() || !s.gateways[i].Available() || s.active != Some(g.node)
    ensures ActiveIsAvailable(Updated(s, i, g))
  {
    if s.active.Some? {
      var a :| a in s.gateways && a.node == s.active.value && a.Available();
      var j :| 0 <= j < |s.gateways| && s.gateways[j] == a;
      assert Updated(s, i, g).gateways[j] in Updated(s, i, g).gateways;
    }
  }

  lemma SuccessKeeps(s: State, node: NodeNum, responseMs: real)
    requires Inv(s)
    ensures Inv(Succeeded(s, node, responseMs))
  {
    hide Inv, Updated;
    assert DistinctNodes(s.gateways) && EventsTell(s) && ActiveIsAvailable(s) by { InvParts(s); }
    match IndexOf(s.gateways, node) {
      case None =>
      case Some(i) =>
        var g := s.gateways[i];
        var loss := g.loss * 0.5;
        var bad := responseMs > s.config.responseLimit || loss > s.config.lossLimit;
        var g' := g.(failures := 0, loss := loss, health := if bad then Degraded else Healthy);
        UpdateKeeps(s, i, g');
        UpdateKeepsActive(s, i, g');
        InvFrom(Updated(s, i, g'));
    }
  }

  lemma InvParts(s: State)
    requires Inv(s)
    ensures DistinctNodes(s.gateways) && EventsTell(s) && ActiveIsAvailable(s)
  {
  }

  lemma InvFrom(s: State)
    requires DistinctNodes(s.gateways) && EventsTell(s) && ActiveIsAvailable(s)
    ensures Inv(s)
  {
  }

  lemma FailureKeeps(s: State, node: NodeNum, now: nat)
    requires Inv(s)
    ensures Inv(Failed(s, node, now))
  {
    hide DistinctNodes, EventsTell, ActiveIsAvailable, FailedOver, Updated, Struck, IndexOf;
    match IndexOf(s.gateways, node) {
      case None =>
      case Some(i) =>
        var g, g' := s.gateways[i], Struck(s.config, s.gateways[i]);
        UpdateKeeps(s, i, g');
        if g.Available() && !g'.Available() && s.active == Some(node) {
          FailoverKeeps(Updated(s, i, g'), now);
        } else {
          UpdateKeepsActive(s, i, g');
        }
    }
  }

  lemma LossKeeps(s: State, node: NodeNum, ratio: real)
    requires Inv(s)
    ensures Inv(LossSet(s, node, ratio))
  {
    match IndexOf(s.gateways, node) {
      case None =>
      case Some(i) =>
        var clamped := if ratio < 0.0 then 0.0 else if ratio > 1.0 then 1.0 else ratio;
        var g := s.gateways[i].(loss := clamped);
        UpdateKeeps(s, i, g);
        UpdateKeepsActive(s, i, g);
        assert LossSet(s, node, ratio) == Updated(s, i, g);
    }
  }

  // ------------------------------------------------------- failures and the threshold

  lemma OfflineCountKeeps(s: State, i: nat, g: Gateway)
    requires OfflineByCount(s) && i < |s.gateways|
    requires g.health == Offline <==> g.failures >= s.config.offlineThreshold
    ensures OfflineByCount(Updated(s, i, g))
  {
    var s' := Updated(s, i, g);
    forall x | x in s'.gateways ensures x.health == Offline <==> x.failures >= s.config.offlineThreshold {
      var j :| 0 <= j < |s'.gateways| && s'.gateways[j] == x;
      assert j != i ==> s.gateways[j] in s.gateways;
    }
  }

  // ---------------------------------------------------- what each operation decides

  ghost predicate Known(gs: seq<Gateway>, node: NodeNum) {
    exists g :: g in gs && g.node == node
  }

  /** The gateway of `node` went from `g` to `g'`, in its place, and no other changed. */
  ghost predicate Replaced(gs: seq<Gateway>, gs': seq<Gateway>, g: Gateway, g': Gateway) {
    exists i :: && 0 <= i < |gs| && gs[i] == g && gs' == gs[i := g'] && g'.node == g.node && g'.priority == g.priority
  }

  /** A change of health class is announced, and nothing else. */
  ghost predicate Announced(s: State, s': State, g: Gateway, g': Gateway) {
    s'.events == s.events + if g.health != g'.health then [StatusChange(g.node, g'.health)] else []
  }

  /**
   A good answer heals the gateway, a slow one or one on a lossy link degrades
   it; either ends the row of failures and halves the loss. Nothing else changes.
   */
  lemma SuccessDecides(s: State, node: NodeNum, responseMs: real, g: Gateway)
    requires DistinctNodes(s.gateways) && g in s.gateways && g.node == node
    ensures var s' := Succeeded(s, node, responseMs);
            exists g' ::
              && Replaced(s.gateways, s'.gateways, g, g') && Announced(s, s', g, g')
              && g'.failures == 0 && 2.0 * g'.loss == g.loss
              && (g'.health == Healthy <==> responseMs <= s.config.responseLimit && g.loss <= 2.0 * s.config.lossLimit)
              && (g'.health == Healthy || g'.health == Degraded)
              && s'.active == s.active && s'.lastFailover == s.lastFailover && s'.config == s.config
  {
    var i := IndexOf(s.gateways, node).value;
    assert s.gateways[i] == g;
    var g' := Succeeded(s, node, responseMs).gateways[i];
    assert Replaced(s.gateways, Succeeded(s, node, responseMs).gateways, g, g');
  }

  /**
   A failed check lengthens the row of failures, keeps seven tenths of the share
   delivered, and makes the gateway offline at the threshold, degraded below it.
   */
  ghost predicate StruckOnce(config: Config, g: Gateway, g': Gateway) {
    && g'.failures == g.failures + 1 && 1.0 - g'.loss == 0.7 * (1.0 - g.loss)
    && g'.health == if g.failures + 1 >= config.offlineThreshold then Offline else Degraded
  }

  /** The active gateway after a selection: the best available one, or none if none is available. */
  ghost predicate BestIsActive(s: State) {
    if s.active.None? then forall g | g in s.gateways :: g.health == Offline
    else exists k: nat :: IsBest(s.gateways, k) && s.gateways[k].node == s.active.value
  }

  lemma FailureDecides(s: State, node: NodeNum, now: nat, g: Gateway)
    requires DistinctNodes(s.gateways) && g in s.gateways && g.node == node
    ensures var s' := Failed(s, node, now);
            exists g' ::
              && Replaced(s.gateways, s'.gateways, g, g') && StruckOnce(s.config, g, g')
              && (if s.active == Some(node) && g.health != Offline && g'.health == Offline then BestIsActive(s')
                  else s'.active == s.active && s'.lastFailover == s.lastFailover && Announced(s, s', g, g'))
  {
    var i := IndexOf(s.gateways, node).value;
    assert s.gateways[i] == g;
    var g' := Struck(s.config, g);
    var u := Updated(s, i, g');
    assert Replaced(s.gateways, u.gateways, g, g') && StruckOnce(s.config, g, g');
    FailoverDecides(u, now);
  }

  /** An answer, a failure or a loss report about a node that is not registered changes nothing. */
  lemma UnknownNodeIsIgnored(s: State, node: NodeNum, x: real, now: nat)
    requires forall g | g in s.gateways :: g.node != node
    ensures Succeeded(s, node, x) == s && Failed(s, node, now) == s && LossSet(s, node, x) == s
  {
  }

  /**
   A failover installs the best available gateway. A change of the active one
   is timed, and announced if there is a new one; without a change nothing happens.
   */
  lemma FailoverDecides(s: State, now: nat)
    ensures var s' := FailedOver(s, now);
            && BestIsActive(s') && s'.gateways == s.gateways && s'.config == s.config
            && (s'.active == s.active ==> s' == s)
            && (s'.active != s.active ==>
                  && s'.lastFailover == Some(now)
                  && s'.events == s.events + if s'.active.Some? then [Failover(s.active, s'.active.value)] else [])
  {
    var k := BestIsBest(s.gateways);
  }

  /** Whether the active gateway is registered and not offline. */
  ghost predicate ActiveServes(s: State) {
    s.active.Some? && exists g :: g in s.gateways && g.node == s.active.value && g.health != Offline
  }

  /**
   A serving active gateway is kept; without one, nothing is selected until the
   cooldown has passed since the last change, and then the best available one.
   */
  lemma EnsureActiveDecides(s: State, now: nat)
    ensures var s' := EnsuredActive(s, now);
            if ActiveServes(s)
               || (s.lastFailover.Some? && s.config.cooldown > 0 && now < s.lastFailover.value + s.config.cooldown)
            then s' == s
            else s' == FailedOver(s, now) && BestIsActive(s')
  {
    FailoverDecides(s, now);
  }

  /** The loss reported is taken as it is within zero and one, and as the nearer of them outside. */
  lemma LossDecides(s: State, node: NodeNum, ratio: real, g: Gateway)
    requires DistinctNodes(s.gateways) && g in s.gateways && g.node == node
    ensures var s' := LossSet(s, node, ratio);
            && s' == s.(gateways := s'.gateways)
            && exists g' ::
                 && Replaced(s.gateways, s'.gateways, g, g') && g'.health == g.health && g'.failures == g.failures
                 && 0.0 <= g'.loss <= 1.0 && (0.0 <= ratio <= 1.0 ==> g'.loss == ratio)
                 && (ratio < 0.0 ==> g'.loss == 0.0) && (ratio > 1.0 ==> g'.loss == 1.0)
  {
    var i := IndexOf(s.gateways, node).value;
    assert s.gateways[i] == g;
    assert Replaced(s.gateways, LossSet(s, node, ratio).gateways, g, LossSet(s, node, ratio).gateways[i]);
  }

  /** A new node joins at the end, healthy; a known one is left as it is. */
  lemma AddDecides(s: State, node: NodeNum, priority: nat)
    ensures var s' := Added(s, node, priority);
            && (Known(s.gateways, node) ==> s' == s)
            && (!Known(s.gateways, node) ==>
                  s' == s.(gateways := s.gateways + [Gateway(node, priority, Healthy, 0, 0.0)], log := s'.log))
  {
    if IndexOf(s.gateways, node).Some? {
      assert s.gateways[IndexOf(s.gateways, node).value] in s.gateways;
    }
  }

  lemma {:induction false} OthersInOrder(gs: seq<Gateway>, node: NodeNum)
    ensures Subsequence(Others(gs, node), gs)
  {
    if gs == [] {
    } else {
      hide Subsequence;
      OthersInOrder(gs[1..], node);
      SubsequenceFront(Others(gs[1..], node), gs[1..], gs[0]);
      assert gs == [gs[0]] + gs[1..];
    }
  }

  /** Removal drops exactly that node, in place, and deactivates it without choosing another. */
  lemma RemoveDecides(s: State, node: NodeNum)
    ensures var s' := Removed(s, node);
            && (forall g :: g in s'.gateways <==> g in s.gateways && g.node != node)
            && Subsequence(s'.gateways, s.gateways)
            && s' == s.(gateways := s'.gateways, active := s'.active)
            && s'.active == if s.active == Some(node) then None else s.active
  {
    OthersInOrder(s.gateways, node);
  }

  // --------------------------------------------------------------- whole runs

  datatype Op =
    | AddGateway(node: NodeNum, priority: nat)
    | RemoveGateway(node: NodeNum)
    | EnsureActive(now: nat)
    | ForceFailover(now: nat)
    | HealthSuccess(node: NodeNum, responseMs: real)
    | HealthFailure(node: NodeNum, now: nat)
    | UpdateLoss(node: NodeNum, ratio: real)
    | UpdateConfig(config: Config)
    | DrainEvents

  function Next(s: State, op: Op): State {
    match op
    case AddGateway(node, priority) => Added(s, node, priority)
    case RemoveGateway(node) => Removed(s, node)
    case EnsureActive(now) => EnsuredActive(s, now)
    case ForceFailover(now) => FailedOver(s, now)
    case HealthSuccess(node, ms) => Succeeded(s, node, ms)
    case HealthFailure(node, now) => Failed(s, node, now)
    case UpdateLoss(node, ratio) => LossSet(s, node, ratio)
    case UpdateConfig(config) => s.(config := config)
    case DrainEvents => s.(events := [])
  }

  function After(config: Config, ops: seq<Op>): State {
    if ops == [] then Start(config) else Next(After(config, Init(ops)), Last(ops))
  }

  lemma NextKeeps(s: State, op: Op)
    requires Inv(s)
    ensures Inv(Next(s, op))
  {
    match op {
      case AddGateway(node, priority) => AddKeeps(s, node, priority);
      case RemoveGateway(node) => RemoveKeeps(s, node);
      case EnsureActive(now) => FailoverKeeps(s, now);
      case ForceFailover(now) => FailoverKeeps(s, now);
      case HealthSuccess(node, ms) => SuccessKeeps(s, node, ms);
      case HealthFailure(node, now) => FailureKeeps(s, node, now);
      case UpdateLoss(node, ratio) => LossKeeps(s, node, ratio);
      case UpdateConfig(config) =>
      case DrainEvents =>
    }
  }

  /**
   In every state reached through the bridge's methods, gateways are distinct,
   the active one is registered and not offline, and each gateway's health is
   what its events since registration say.
   */
  lemma {:induction false} RunsKeep(config: Config, ops: seq<Op>)
    ensures Inv(After(config, ops))
    decreases |ops|
  {
    if ops != [] {
      hide Inv, Next;
      RunsKeep(config, Init(ops));
      NextKeeps(After(config, Init(ops)), Last(ops));
    } else {
      assert Inv(Start(config));
    }
  }

  lemma NextCounts(s: State, op: Op)
    requires OfflineByCount(s) && s.config.offlineThreshold >= 1
    requires op.UpdateConfig? ==> op.config.offlineThreshold == s.config.offlineThreshold
    ensures OfflineByCount(Next(s, op))
    ensures Next(s, op).config.offlineThreshold == s.config.offlineThreshold
  {
    match op {
      case AddGateway(node, priority) =>
        assert forall g | g in Added(s, node, priority).gateways ::
            g in s.gateways || (g.failures == 0 && g.health == Healthy);
      case HealthSuccess(node, ms) =>
        var r := IndexOf(s.gateways, node);
        if r.Some? { OfflineCountKeeps(s, r.value, Succeeded(s, node, ms).gateways[r.value]); }
      case HealthFailure(node, now) =>
        var r := IndexOf(s.gateways, node);
        if r.Some? { OfflineCountKeeps(s, r.value, Failed(s, node, now).gateways[r.value]); }
      case UpdateLoss(node, ratio) =>
        var r := IndexOf(s.gateways, node);
        if r.Some? {
          assert s.gateways[r.value] in s.gateways;
          OfflineCountKeeps(s, r.value, LossSet(s, node, ratio).gateways[r.value]);
        }
      case _ =>
    }
  }

  /** With a fixed threshold of at least one, a gateway is offline exactly after that many failures in a row. */
  lemma {:induction false} OfflineIffThreshold(config: Config, ops: seq<Op>)
    requires config.offlineThreshold >= 1
    requires forall op | op in ops && op.UpdateConfig? :: op.config.offlineThreshold == config.offlineThreshold
    ensures OfflineByCount(After(config, ops)) && After(config, ops).config.offlineThreshold == config.offlineThreshold
    decreases |ops|
  {
    if ops != [] {
      hide OfflineByCount, Next;
      OfflineIffThreshold(config, Init(ops));
      assert Last(ops) in ops;
      NextCounts(After(config, Init(ops)), Last(ops));
    } else {
      assert OfflineByCount(Start(config));
    }
  }

  /** Outside the cooldown a gateway is active exactly when one is available: the one kept, or the best. */
  lemma EnsureActiveIsComplete(s: State, now: nat)
    requires Inv(s) && !CoolingDown(s, now)
    ensures EnsuredActive(s, now).active.Some? <==> exists g :: g in s.gateways && g.Available()
    ensures EnsuredActive(s, now).active == if s.active.Some? then s.active else Selected(s)
  {
    SelectedIsAvailable(s);
    FailoverKeeps(s, now);
  }

  // ------------------------------------------------------ the bridge's own code

  class GatewayBridge {
    var gateways: seq<Gateway>
    var active: Option<NodeNum>
    var lastFailover: Option<nat>
    var events: seq<Event>
    var config: Config
    ghost var log: seq<Logged>

    ghost function Current(): State
      reads this
    {
      State(gateways, active, lastFailover, events, config, log)
    }

    constructor (config: Config)
      ensures Current() == Start(config)
    {
      gateways, active, lastFailover, events := [], None, None, [];
      this.config := config;
      log := [];
    }

    method AddGateway(node: NodeNum, priority: nat)
      modifies this
      ensures Current() == Added(old(Current()), node, priority)
    {
      if IndexOf(gateways, node).None? {
        gateways := gateways + [Gateway(node, priority, Healthy, 0, 0.0)];
        log := log + [Registered(node)];
      }
    }

    method RemoveGateway(node: NodeNum)
      modifies this
      ensures Current() == Removed(old(Current()), node)
    {
      gateways := Others(gateways, node);
      if active == Some(node) {
        active := None;
      }
    }

    method DrainEvents() returns (drained: seq<Event>)
      modifies this`events
      ensures drained == old(events) && Current() == old(Current()).(events := [])
    {
      drained := events;
      events := [];
    }

    method SelectGateway() returns (r: Option<NodeNum>)
      ensures r == Selected(Current())
    {
      var best: Option<Gateway> := None;
      for i := 0 to |gateways|
        invariant best == Best(gateways[..i])
      {
        assert Init(gateways[..i + 1]) == gateways[..i] && Last(gateways[..i + 1]) == gateways[i];
        var g := gateways[i];
        if g.Available() && (best.None? || Better(g, best.value)) {
          best := Some(g);
        }
      }
      assert gateways[..|gateways|] == gateways;
      r := if best.Some? then Some(best.value.node) else None;
    }

    method ForceFailover(now: nat)
      modifies this
      ensures Current() == FailedOver(old(Current()), now)
    {
      var previous := active;
      var next := SelectGateway();
      if next != previous {
        active, lastFailover := next, Some(now);
        if next.Some? {
          Push(Failover(previous, next.value));
        }
      }
    }

    method Push(e: Event)
      modifies this`events, this`log
      ensures Current() == Emit(old(Current()), e)
    {
      events := events + [e];
      log := log + [Emitted(e)];
    }

    method EnsureActive(now: nat)
      modifies this
      ensures Current() == EnsuredActive(old(Current()), now)
    {
      var needed := active.None? || !exists g | g in gateways :: g.node == active.value && g.Available();
      if needed {
        if lastFailover.Some? && Elapsed(lastFailover.value, now) < config.cooldown {
          return;
        }
        ForceFailover(now);
      }
    }

    method RecordHealthSuccess(node: NodeNum, responseMs: real)
      modifies this
      ensures Current() == Succeeded(old(Current()), node, responseMs)
    {
      var r := IndexOf(gateways, node);
      if r.None? {
        return;
      }
      var i, g := r.value, gateways[r.value];
      var loss := g.loss * 0.5;
      var health := if responseMs > config.responseLimit || loss > config.lossLimit then Degraded else Healthy;
      if g.health != health {
        Push(StatusChange(node, health));
      }
      gateways := gateways[i := g.(failures := 0, loss := loss, health := health)];
    }

    method RecordHealthFailure(node: NodeNum, now: nat)
      modifies this
      ensures Current() == Failed(old(Current()), node, now)
    {
      var r := IndexOf(gateways, node);
      if r.None? {
        return;
      }
      var i := r.value;
      var g := gateways[i].(failures := gateways[i].failures + 1, loss := gateways[i].loss * 0.7 + 0.3);
      var wasAvailable := g.Available();
      if g.failures >= config.offlineThreshold {
        if g.health != Offline {
          Push(StatusChange(node, Offline));
        }
        g := g.(health := Offline);
      } else if g.health != Degraded {
        Push(StatusChange(node, Degraded));
        g := g.(health := Degraded);
      }
      gateways := gateways[i := g];
      if wasAvailable && !g.Available() && active == Some(node) {
        ForceFailover(now);
      }
    }

    method UpdatePacketLoss(node: NodeNum, ratio: real)
      modifies this
      ensures Current() == LossSet(old(Current()), node, ratio)
    {
      var r := IndexOf(gateways, node);
      if r.Some? {
        var clamped := if ratio < 0.0 then 0.0 else if ratio > 1.0 then 1.0 else ratio;
        gateways := gateways[r.value := gateways[r.value].(loss := clamped)];
      }
    }
  }
}
