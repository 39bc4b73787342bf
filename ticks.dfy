/** The two connection controllers `handleWifi` and `handleMQTT` and the
    supervisory `loop` that runs them, as functions from the old controller
    state and what the tick observes to the new state, the "state changed"
    result, and the calls made in order. The class in client.dfy performs the
    same steps on its fields and is proved to agree with these functions. */
module Ticks {
  import opened Types

  /** The Wi-Fi fields of the client: whether it manages Wi-Fi at all, the
      recorded link state, an attempt in progress, the attempt times, the
      attempt timeout, and the `static first_loop_call` of `handleWifi`. */
  datatype WifiState = WifiState(
    handle: bool,
    connected: bool,
    connecting: bool,
    lastAttempt: nat,
    nextAttempt: nat,
    delay: nat,
    firstLoopCall: bool)

  /** The MQTT session fields: the recorded session state, the next attempt
      time (0 when none is scheduled), the retry delay, and the
      connection-established count and callback. */
  datatype MqttState = MqttState(
    connected: bool,
    nextAttempt: nat,
    delay: nat,
    establishedCount: nat,
    establishedCallback: CallbackId)

  /** The failed-connection escalation: the count of failed broker
      connections, the drastic-reset flag, and whether the board was told to
      restart. */
  datatype Escalation = Escalation(failedCount: nat, drastic: bool, restarted: bool)

  /** The fields of the client that the ticks read and write. */
  datatype Controller = Controller(wifi: WifiState, mqtt: MqttState, escalation: Escalation)

  /** What one tick produces: the new state, whether the controller reports
      a change, and the calls it made. */
  datatype Step = Step(next: Controller, changed: bool, effects: seq<Effect>)

  /** Delays between retries, in milliseconds. */
  const SettleDelay: nat := 500
  const WifiReconnectionDelay: nat := 60 * 1000
  const MqttReconnectionDelay: nat := 15 * 1000

  /** Failure counts that trigger a Wi-Fi reset and a board restart. */
  const WifiResetThreshold: nat := 8
  const RestartThreshold: nat := 12

  /** The state the constructor leaves; `handleWifi` is whether an SSID was given. */
  function Initial(handleWifi: bool): (c: Controller)
    ensures c.wifi.handle == handleWifi && c.wifi.firstLoopCall && !c.escalation.restarted
    ensures !c.wifi.connected && !c.mqtt.connected && !c.wifi.connecting && !c.escalation.drastic
    ensures c.escalation.failedCount == 0 && c.mqtt.establishedCount == 0
    ensures c.mqtt.establishedCallback == DefaultEstablishedCallback
    ensures c.wifi.nextAttempt == 500 && c.wifi.lastAttempt == 0 && c.mqtt.nextAttempt == 0
    ensures c.wifi.delay == 60000 && c.mqtt.delay == 15000
  {
    Controller(
      WifiState(handle := handleWifi, connected := false, connecting := false, lastAttempt := 0,
                nextAttempt := 500, delay := WifiReconnectionDelay, firstLoopCall := true),
      MqttState(connected := false, nextAttempt := 0, delay := MqttReconnectionDelay,
                establishedCount := 0, establishedCallback := DefaultEstablishedCallback),
      Escalation(failedCount := 0, drastic := false, restarted := false))
  }

  /** The escalation invariant: without drastic mode the failure count stays
      below 8; with it, it stays at most 12, and the board is restarted
      exactly when it reaches 12. */
  predicate Bounded(e: Escalation)
  {
    (if e.drastic then e.failedCount <= RestartThreshold else e.failedCount < WifiResetThreshold) &&
    (e.restarted <==> e.failedCount == RestartThreshold)
  }

  /** The Wi-Fi branch that the tick takes, before the final change check.
      Only the Wi-Fi fields other than the link state, and the next MQTT
      attempt, can change. */
  function WifiBranch(c: Controller, env: Env): (r: (Controller, seq<Effect>))
    requires c.wifi.lastAttempt <= env.now
    ensures r.0.wifi.lastAttempt <= env.now
    ensures r.0.wifi == c.wifi.(connecting := r.0.wifi.connecting, lastAttempt := r.0.wifi.lastAttempt, nextAttempt := r.0.wifi.nextAttempt)
    ensures r.0.mqtt == c.mqtt.(nextAttempt := r.0.mqtt.nextAttempt) && r.0.escalation == c.escalation
    ensures forall e | e in r.1 :: e == WifiDisconnect || e == WifiBegin
  {
    var w := c.wifi;
    var up := env.wifiStatus == Connected;
    if up && !w.connected then
      // Connection established: wait 500 ms before trying the broker.
      (c.(wifi := w.(connecting := false), mqtt := c.mqtt.(nextAttempt := env.now + SettleDelay)), [])
    else if w.connecting then
      // Connection in progress: give up on failure or after the delay.
      if env.wifiStatus == ConnectFailed || env.now - w.lastAttempt >= w.delay then
        (c.(wifi := w.(nextAttempt := env.now + SettleDelay, connecting := false)), [WifiDisconnect])
      else (c, [])
    else if !up && w.connected then
      // Connection lost.
      if w.handle then (c.(wifi := w.(nextAttempt := env.now + SettleDelay)), [WifiDisconnect]) else (c, [])
    else if w.handle && w.nextAttempt > 0 && env.now >= w.nextAttempt then
      // Disconnected and the attempt is due.
      (c.(wifi := w.(nextAttempt := 0, connecting := true, lastAttempt := env.now)), [WifiBegin])
    else (c, [])
  }

  /** `handleWifi()`. The first tick of a client that manages Wi-Fi only resets
      the radio, schedules the first attempt and reports a change. Every other
      tick reports a change iff the observed link state differs from the
      recorded one, and records the observation. */
  function WifiTick(c: Controller, env: Env): (s: Step)
    requires c.wifi.lastAttempt <= env.now
    ensures c.wifi.handle && c.wifi.firstLoopCall ==>
      && s.changed && s.effects == [WifiDisconnect]
      && s.next == c.(wifi := c.wifi.(nextAttempt := env.now + SettleDelay, firstLoopCall := false))
    ensures !(c.wifi.handle && c.wifi.firstLoopCall) ==>
      && s.changed == ((env.wifiStatus == Connected) != c.wifi.connected)
      && s.next.wifi.connected == (env.wifiStatus == Connected)
      && s.next.wifi.firstLoopCall == c.wifi.firstLoopCall
    ensures s.next.wifi.lastAttempt <= env.now
    ensures s.next.wifi.handle == c.wifi.handle && s.next.wifi.delay == c.wifi.delay
    ensures s.next.mqtt == c.mqtt.(nextAttempt := s.next.mqtt.nextAttempt) && s.next.escalation == c.escalation
    ensures forall e | e in s.effects :: e == WifiDisconnect || e == WifiBegin
  {
    if c.wifi.handle && c.wifi.firstLoopCall then
      Step(c.(wifi := c.wifi.(nextAttempt := env.now + SettleDelay, firstLoopCall := false)), true, [WifiDisconnect])
    else
      var up := env.wifiStatus == Connected;
      var (c1, fx) := WifiBranch(c, env);
      if up != c1.wifi.connected then Step(c1.(wifi := c1.wifi.(connected := up)), true, fx)
      else Step(c1, false, fx)
  }

  /** The result of a failed broker connection: retry after the delay, and at
      8 failures reset Wi-Fi (keeping the count only in drastic mode), or in
      drastic mode at 12 failures restart the board. */
  function FailedAttempt(c: Controller, now: nat): (r: (Controller, seq<Effect>))
    ensures r.0.wifi == c.wifi.(nextAttempt := r.0.wifi.nextAttempt)
    ensures r.0.mqtt == c.mqtt.(nextAttempt := now + c.mqtt.delay)
    ensures r.0.escalation.drastic == c.escalation.drastic
  {
    var e := c.escalation;
    var n := e.failedCount + 1;
    var c1 := c.(mqtt := c.mqtt.(nextAttempt := now + c.mqtt.delay), escalation := e.(failedCount := n));
    if n == WifiResetThreshold then
      (c1.(wifi := c.wifi.(nextAttempt := now + SettleDelay), escalation := e.(failedCount := if e.drastic then n else 0)),
       [MqttDisconnect, WifiDisconnect])
    else if e.drastic && n == RestartThreshold then
      (c1.(escalation := e.(failedCount := n, restarted := true)), [MqttDisconnect, Restart])
    else (c1, [MqttDisconnect])
  }

  /** The MQTT branch that the tick takes, before the final change check. The
      recorded session ends up up if it was, or if it came up. */
  function MqttBranch(c: Controller, env: Env, args: ConnectArgs): (r: (Controller, seq<Effect>))
    ensures r.0.mqtt.connected == (c.mqtt.connected || (c.wifi.connected && env.mqttClientConnected))
    ensures r.0.wifi == c.wifi.(nextAttempt := r.0.wifi.nextAttempt)
    ensures r.0.mqtt.delay == c.mqtt.delay && r.0.mqtt.establishedCallback == c.mqtt.establishedCallback
    ensures r.0.escalation.drastic == c.escalation.drastic
  {
    var m := c.mqtt;
    var up := c.wifi.connected && env.mqttClientConnected;
    if up && !m.connected then
      // Connection established: the flag is set here, before the change check.
      (c.(mqtt := m.(connected := true, establishedCount := m.establishedCount + 1)), [EstablishedCallback(m.establishedCallback)])
    else if !up && m.connected then
      // Connection lost.
      (c.(mqtt := m.(nextAttempt := env.now + m.delay)), [])
    else if c.wifi.connected && m.nextAttempt > 0 && env.now >= m.nextAttempt then
      // The attempt is due.
      if env.connectSucceeds then
        (c.(mqtt := m.(nextAttempt := 0), escalation := c.escalation.(failedCount := 0)), [MqttConnect(args)])
      else
        var (c1, fx) := FailedAttempt(c, env.now);
        (c1, [MqttConnect(args)] + fx)
    else (c, [])
  }

  /** `handleMQTT()`. The library is pumped first; the session counts as up
      when Wi-Fi is recorded as up and the library holds a session. Only a
      LOST session is reported as a change: the established branch sets the
      flag before the final comparison. The new flag is the observation. */
  function MqttTick(c: Controller, env: Env, args: ConnectArgs): (s: Step)
    ensures s.changed <==> c.mqtt.connected && !(c.wifi.connected && env.mqttClientConnected)
    ensures s.next.mqtt.connected == (c.wifi.connected && env.mqttClientConnected)
    ensures |s.effects| > 0 && s.effects[0] == MqttLoop
    ensures s.next.wifi == c.wifi.(nextAttempt := s.next.wifi.nextAttempt)
    ensures s.next.mqtt.delay == c.mqtt.delay && s.next.mqtt.establishedCallback == c.mqtt.establishedCallback
    ensures s.next.escalation.drastic == c.escalation.drastic
  {
    var up := c.wifi.connected && env.mqttClientConnected;
    var (c1, fx) := MqttBranch(c, env, args);
    if c1.mqtt.connected != up then Step(c1.(mqtt := c1.mqtt.(connected := up)), true, [MqttLoop] + fx)
    else Step(c1, false, [MqttLoop] + fx)
  }

  /** `loop()`: the Wi-Fi tick, then, only when it reported no change, the
      MQTT tick. */
  function LoopTick(c: Controller, env: Env, args: ConnectArgs): Step
    requires c.wifi.lastAttempt <= env.now
  {
    var w := WifiTick(c, env);
    if w.changed then w
    else
      var m := MqttTick(w.next, env, args);
      Step(m.next, m.changed, w.effects + m.effects)
  }

  /** A tick in which the Wi-Fi controller reports a change does no MQTT work
      at all; otherwise the MQTT tick runs on the Wi-Fi tick's result. */
  lemma LoopGating(c: Controller, env: Env, args: ConnectArgs)
    requires c.wifi.lastAttempt <= env.now
    ensures WifiTick(c, env).changed ==> LoopTick(c, env, args) == WifiTick(c, env) && MqttLoop !in LoopTick(c, env, args).effects
    ensures !WifiTick(c, env).changed ==> MqttLoop in LoopTick(c, env, args).effects
  {
    var w := WifiTick(c, env);
    if !w.changed {
      var m := MqttTick(w.next, env, args);
      assert LoopTick(c, env, args).effects[|w.effects|] == m.effects[0];
    }
  }

  /** Link up: the attempt in progress ends, nothing is called, and the
      broker is first tried 500 ms later. */
  lemma WifiEstablished(c: Controller, env: Env)
    requires c.wifi.lastAttempt <= env.now
    requires env.wifiStatus == Connected && !c.wifi.connected
    ensures var (c1, fx) := WifiBranch(c, env);
      && c1.wifi == c.wifi.(connecting := false) && c1.mqtt.nextAttempt == env.now + SettleDelay
      && fx == []
  {
  }

  /** An attempt in progress is abandoned, with a radio reset and a retry
      500 ms later, exactly when the radio reports failure or the attempt
      timeout has passed; otherwise it keeps waiting. */
  lemma WifiAttemptAborts(c: Controller, env: Env)
    requires c.wifi.lastAttempt <= env.now
    requires c.wifi.connecting && !(env.wifiStatus == Connected && !c.wifi.connected)
    ensures var (c1, fx) := WifiBranch(c, env);
      var expired := env.wifiStatus == ConnectFailed || env.now - c.wifi.lastAttempt >= c.wifi.delay;
      && (expired ==> c1.wifi == c.wifi.(nextAttempt := env.now + SettleDelay, connecting := false) && fx == [WifiDisconnect])
      && (!expired ==> c1 == c && fx == [])
      && c1.mqtt == c.mqtt
  {
  }

  /** Link lost with no attempt in progress: a client that manages Wi-Fi
      resets the radio and retries 500 ms later; any other client does
      nothing. */
  lemma WifiLostReschedules(c: Controller, env: Env)
    requires c.wifi.lastAttempt <= env.now
    requires env.wifiStatus != Connected && c.wifi.connected && !c.wifi.connecting
    ensures var (c1, fx) := WifiBranch(c, env);
      && (c.wifi.handle ==> c1.wifi == c.wifi.(nextAttempt := env.now + SettleDelay) && fx == [WifiDisconnect])
      && (!c.wifi.handle ==> c1 == c && fx == [])
      && c1.mqtt == c.mqtt
  {
  }

  /** The radio is asked to connect exactly when Wi-Fi is managed, no
      attempt is in progress, the recorded link state is the observed one
      (up or down: the branch does not look at the link), and the scheduled
      time has come; the attempt then starts now and nothing is scheduled. */
  lemma WifiAttemptStarts(c: Controller, env: Env)
    requires c.wifi.lastAttempt <= env.now
    ensures var (c1, fx) := WifiBranch(c, env);
      var due := c.wifi.handle && !c.wifi.connecting && (env.wifiStatus == Connected) == c.wifi.connected
        && c.wifi.nextAttempt > 0 && env.now >= c.wifi.nextAttempt;
      && (WifiBegin in fx <==> due)
      && (due ==> c1.wifi == c.wifi.(nextAttempt := 0, connecting := true, lastAttempt := env.now) && fx == [WifiBegin] && c1.mqtt == c.mqtt)
  {
  }

  /** A quiet Wi-Fi tick: no attempt in progress, the link as recorded, and
      no attempt due (or Wi-Fi not managed). Nothing changes and nothing is
      called. */
  lemma WifiIdle(c: Controller, env: Env)
    requires c.wifi.lastAttempt <= env.now
    requires !c.wifi.connecting && (env.wifiStatus == Connected) == c.wifi.connected
    requires !(c.wifi.handle && c.wifi.nextAttempt > 0 && env.now >= c.wifi.nextAttempt)
    ensures WifiBranch(c, env) == (c, [])
  {
  }

  /** A quiet MQTT tick: the session as recorded and no attempt due. Only
      the library is pumped, nothing changes, and no change is reported. */
  lemma MqttIdle(c: Controller, env: Env, args: ConnectArgs)
    requires (c.wifi.connected && env.mqttClientConnected) == c.mqtt.connected
    requires !(c.wifi.connected && c.mqtt.nextAttempt > 0 && env.now >= c.mqtt.nextAttempt)
    ensures MqttTick(c, env, args) == Step(c, false, [MqttLoop])
  {
  }

  /** Session established: the flag is set and the count grows, with no
      change reported; the schedule, the failure count and Wi-Fi are left
      alone; the library is pumped, then the established callback called. */
  lemma MqttEstablished(c: Controller, env: Env, args: ConnectArgs)
    requires c.wifi.connected && env.mqttClientConnected && !c.mqtt.connected
    ensures var s := MqttTick(c, env, args);
      && !s.changed
      && s.next == c.(mqtt := c.mqtt.(connected := true, establishedCount := c.mqtt.establishedCount + 1))
      && s.effects == [MqttLoop, EstablishedCallback(c.mqtt.establishedCallback)]
  {
  }

  /** Session lost: the tick reports the change, records the session as
      down, schedules the next broker attempt after the MQTT delay, and only
      pumps the library. */
  lemma MqttLostReschedules(c: Controller, env: Env, args: ConnectArgs)
    requires c.mqtt.connected && !(c.wifi.connected && env.mqttClientConnected)
    ensures var s := MqttTick(c, env, args);
      && s.changed
      && s.next == c.(mqtt := c.mqtt.(connected := false, nextAttempt := env.now + c.mqtt.delay))
      && s.effects == [MqttLoop]
  {
  }

  /** The session controller never tries the broker unless the link is up in
      that very tick: the radio reports a connection and the client has
      recorded it. */
  lemma ConnectOnlyOverLink(c: Controller, env: Env, args: ConnectArgs, a: ConnectArgs)
    requires c.wifi.lastAttempt <= env.now
    requires MqttConnect(a) in LoopTick(c, env, args).effects
    ensures env.wifiStatus == Connected && WifiTick(c, env).next.wifi.connected && a == args
  {
    var w := WifiTick(c, env);
    assert MqttConnect(a) !in w.effects;
    var m := MqttTick(w.next, env, args);
    assert MqttConnect(a) in m.effects;
  }

  /** A failed broker connection, when the attempt is due and no transition is
      pending: the count grows by one, the next attempt waits the MQTT delay,
      and the escalation rules apply at 8 and 12. */
  lemma FailedConnectEscalates(c: Controller, env: Env, args: ConnectArgs)
    requires !c.escalation.restarted && c.wifi.connected && (env.mqttClientConnected == c.mqtt.connected)
    requires c.mqtt.nextAttempt > 0 && env.now >= c.mqtt.nextAttempt && !env.connectSucceeds
    ensures var s := MqttTick(c, env, args);
      var e := c.escalation;
      var n := e.failedCount + 1;
      && !s.changed
      && s.next.mqtt.nextAttempt == env.now + c.mqtt.delay
      && s.effects[..3] == [MqttLoop, MqttConnect(args), MqttDisconnect]
      && (n == WifiResetThreshold ==>
            && s.next.escalation == e.(failedCount := if e.drastic then n else 0)
            && s.next.wifi == c.wifi.(nextAttempt := env.now + SettleDelay)
            && s.effects == [MqttLoop, MqttConnect(args), MqttDisconnect, WifiDisconnect])
      && (e.drastic && n == RestartThreshold ==>
            && s.next.escalation == e.(failedCount := n, restarted := true)
            && s.next.wifi == c.wifi
            && s.effects == [MqttLoop, MqttConnect(args), MqttDisconnect, Restart])
      && (n != WifiResetThreshold && !(e.drastic && n == RestartThreshold) ==>
            && s.next.escalation == e.(failedCount := n)
            && s.next.wifi == c.wifi
            && s.effects == [MqttLoop, MqttConnect(args), MqttDisconnect])
  {
  }

  /** A successful broker connection clears the count and the schedule, and
      reports nothing. */
  lemma SucceededConnectResets(c: Controller, env: Env, args: ConnectArgs)
    requires c.wifi.connected && (env.mqttClientConnected == c.mqtt.connected)
    requires c.mqtt.nextAttempt > 0 && env.now >= c.mqtt.nextAttempt && env.connectSucceeds
    ensures var s := MqttTick(c, env, args);
      && !s.changed && s.next.escalation == c.escalation.(failedCount := 0)
      && s.next.mqtt == c.mqtt.(nextAttempt := 0) && s.next.wifi == c.wifi
      && s.effects == [MqttLoop, MqttConnect(args)]
  {
  }

  /** The connection-established callback is called, and the count of
      established connections grows, exactly on the established transition. */
  lemma EstablishedCallbackOnTransition(c: Controller, env: Env, args: ConnectArgs, cb: CallbackId)
    ensures var s := MqttTick(c, env, args);
      var established := c.wifi.connected && env.mqttClientConnected && !c.mqtt.connected;
      && (EstablishedCallback(cb) in s.effects <==> established && cb == c.mqtt.establishedCallback)
      && s.next.mqtt.establishedCount == c.mqtt.establishedCount + (if established then 1 else 0)
  {
  }

  /** The MQTT tick keeps the escalation invariant of a running board. */
  lemma MqttTickBounded(c: Controller, env: Env, args: ConnectArgs)
    requires Bounded(c.escalation) && !c.escalation.restarted
    ensures Bounded(MqttTick(c, env, args).next.escalation)
  {
  }

  /** The loop keeps the escalation invariant of a running board; without
      drastic mode the count stays at most 7 after every tick. */
  lemma LoopTickBounded(c: Controller, env: Env, args: ConnectArgs)
    requires c.wifi.lastAttempt <= env.now
    requires Bounded(c.escalation) && !c.escalation.restarted
    ensures Bounded(LoopTick(c, env, args).next.escalation)
    ensures LoopTick(c, env, args).next.escalation.drastic == c.escalation.drastic
    ensures !c.escalation.drastic ==> LoopTick(c, env, args).next.escalation.failedCount <= 7
  {
    var w := WifiTick(c, env);
    if !w.changed {
      MqttTickBounded(w.next, env, args);
    }
  }

  /** The restart effect ends a tick and leaves the board marked restarted. */
  lemma RestartEndsTick(c: Controller, env: Env, args: ConnectArgs)
    requires c.wifi.lastAttempt <= env.now
    requires Restart in LoopTick(c, env, args).effects
    ensures var s := LoopTick(c, env, args);
      s.next.escalation.restarted && s.effects[|s.effects| - 1] == Restart && Restart !in s.effects[..|s.effects| - 1]
  {
    var w := WifiTick(c, env);
    assert Restart !in w.effects;
    var m := MqttTick(w.next, env, args);
    var (c1, fx) := MqttBranch(w.next, env, args);
    assert Restart in fx;
    var s := LoopTick(c, env, args);
    assert s.effects == w.effects + [MqttLoop] + fx;
    var (c2, fx2) := FailedAttempt(w.next, env.now);
    assert fx == [MqttConnect(args)] + fx2;
    assert fx2 == [MqttDisconnect, Restart];
    assert s.effects[..|s.effects| - 1] == w.effects + [MqttLoop, MqttConnect(args), MqttDisconnect];
  }

  /** Times never go backwards, and the board's last Wi-Fi attempt time is
      not after the first tick's time. */
  predicate Clocked(c: Controller, envs: seq<Env>)
  {
    (forall i, j | 0 <= i < j < |envs| :: envs[i].now <= envs[j].now) &&
    (|envs| > 0 ==> c.wifi.lastAttempt <= envs[0].now)
  }

  /** The state after the board runs `loop()` once per observation, in order;
      a restarted board runs nothing more. */
  function Run(c: Controller, envs: seq<Env>, args: ConnectArgs): Controller
    requires Clocked(c, envs)
    decreases |envs|
  {
    if envs == [] || c.escalation.restarted then c
    else
      var s := LoopTick(c, envs[0], args);
      assert Clocked(s.next, envs[1..]);
      Run(s.next, envs[1..], args)
  }

  /** The calls the board makes over such a run. */
  function RunEffects(c: Controller, envs: seq<Env>, args: ConnectArgs): seq<Effect>
    requires Clocked(c, envs)
    decreases |envs|
  {
    if envs == [] || c.escalation.restarted then []
    else
      var s := LoopTick(c, envs[0], args);
      assert Clocked(s.next, envs[1..]);
      s.effects + RunEffects(s.next, envs[1..], args)
  }

  /** Over any run the escalation invariant holds at the end; without drastic
      mode the count is at most 7. */
  lemma {:induction false} RunBounded(c: Controller, envs: seq<Env>, args: ConnectArgs)
    requires Clocked(c, envs) && Bounded(c.escalation)
    ensures Bounded(Run(c, envs, args).escalation)
    ensures !c.escalation.drastic ==> Run(c, envs, args).escalation.failedCount <= 7
    decreases |envs|
  {
    if envs != [] && !c.escalation.restarted {
      var s := LoopTick(c, envs[0], args);
      LoopTickBounded(c, envs[0], args);
      assert Clocked(s.next, envs[1..]);
      RunBounded(s.next, envs[1..], args);
    }
  }

  /** The board restarts at most once in a run, and the restart is the last
      thing it does. */
  lemma {:induction false} RestartIsLast(c: Controller, envs: seq<Env>, args: ConnectArgs)
    requires Clocked(c, envs)
    requires Restart in RunEffects(c, envs, args)
    ensures var fx := RunEffects(c, envs, args);
      fx[|fx| - 1] == Restart && Restart !in fx[..|fx| - 1]
    decreases |envs|
  {
    var s := LoopTick(c, envs[0], args);
    assert Clocked(s.next, envs[1..]);
    var rest := RunEffects(s.next, envs[1..], args);
    var fx := RunEffects(c, envs, args);
    assert fx == s.effects + rest;
    if Restart in s.effects {
      RestartEndsTick(c, envs[0], args);
      assert rest == [];
    } else {
      RestartIsLast(s.next, envs[1..], args);
      assert fx[..|fx| - 1] == s.effects + rest[..|rest| - 1];
    }
  }
}
