/** The class `EspHomeClient`: its fields, its constructors, the supervisory
    `loop` with its two controllers, publish, subscribe and unsubscribe, the
    message entry point and the setters. Each method performs the source's
    steps on the fields and appends the calls it makes to `effects`; its
    contract ties the new state to the functions of the other modules. */
module Client {
  import opened Types
  import opened Topics
  import opened Matcher
  import opened Inbound
  import opened Registry
  import opened Ticks

  /** The calls a successful `unsubscribe` makes for `n` matching records. */
  function UnsubscribeCalls(topic: string, n: nat): (r: seq<Effect>)
    ensures |r| == n
    ensures forall e | e in r :: e == MqttUnsubscribe(topic)
  {
    if n == 0 then [] else UnsubscribeCalls(topic, n - 1) + [MqttUnsubscribe(topic)]
  }

  class EspHomeClient {
    // Wi-Fi
    var handleWifi: bool
    var wifiConnected: bool
    var connectingToWifi: bool
    var lastWifiConnectionAttemptMillis: nat
    var nextWifiConnectionAttemptMillis: nat
    var wifiReconnectionAttemptDelay: nat
    const wifiSsid: Option<string>
    const wifiPassword: Option<string>

    // MQTT
    var mqttConnected: bool
    var nextMqttConnectionAttemptMillis: nat
    var mqttReconnectionAttemptDelay: nat
    const mqttBroker: string
    const mqttPort: int16
    const mqttUsername: Option<string>
    const mqttPassword: Option<string>
    const mqttClientName: string
    var mqttCleanSession: bool
    var mqttLastWillTopic: Option<string>
    var mqttLastWillMessage: Option<string>
    var mqttLastWillRetain: bool
    var failedMqttConnectionAttemptCount: nat
    var topicSubscriptionList: seq<Record>

    // Other
    var connectionEstablishedCallback: CallbackId
    var drasticResetOnConnectionFailures: bool
    var connectionEstablishedCount: nat

    /** The function-local `static first_loop_call` of `handleWifi`. */
    var firstLoopCall: bool
    /** Set once the board has been told to restart. */
    var restarted: bool
    /** The calls made so far into Wi-Fi, the MQTT library and the application. */
    var effects: seq<Effect>

    /** The controller fields, as the value the tick functions work on. */
    function Snapshot(): Controller
      reads this
    {
      Controller(
        WifiState(handleWifi, wifiConnected, connectingToWifi, lastWifiConnectionAttemptMillis,
                  nextWifiConnectionAttemptMillis, wifiReconnectionAttemptDelay, firstLoopCall),
        MqttState(mqttConnected, nextMqttConnectionAttemptMillis, mqttReconnectionAttemptDelay,
                  connectionEstablishedCount, connectionEstablishedCallback),
        Escalation(failedMqttConnectionAttemptCount, drasticResetOnConnectionFailures, restarted))
    }

    /** The arguments `connectToMqttBroker` passes to the library: the last
        will QoS is always 0. */
    function ConnectArguments(): ConnectArgs
      reads this
    {
      ConnectArgs(mqttClientName, mqttUsername, mqttPassword, mqttLastWillTopic, 0,
                  mqttLastWillRetain, mqttLastWillMessage, mqttCleanSession)
    }

    /** The escalation invariant and unique subscription topics. */
    predicate Valid()
      reads this
    {
      Bounded(Snapshot().escalation) && UniqueTopics(topicSubscriptionList)
    }

    /** `isWifiConnected()`. */
    function IsWifiConnected(): (r: bool)
      reads this
      ensures r <==> Snapshot().wifi.connected
    {
      wifiConnected
    }

    /** `isMqttConnected()`. */
    function IsMqttConnected(): (r: bool)
      reads this
      ensures r <==> Snapshot().mqtt.connected
    {
      mqttConnected
    }

    /** `isConnected()`: both the link and the session are recorded as up. */
    function IsConnected(): (r: bool)
      reads this
      ensures r <==> Snapshot().wifi.connected && Snapshot().mqtt.connected
    {
      IsWifiConnected() && IsMqttConnected()
    }

    /** The constructor with credentials. Wi-Fi is handled only when an SSID
        is given; the client name defaults to "ESP8266" and the port to 1883. */
    constructor (wifiSsid: Option<string>, wifiPassword: Option<string>, mqttBroker: string,
                 mqttUsername: Option<string>, mqttPassword: Option<string>,
                 mqttClientName: string := "ESP8266", mqttPort: int16 := 1883)
      ensures Snapshot() == Initial(wifiSsid.Some?)
      ensures this.wifiSsid == wifiSsid && this.wifiPassword == wifiPassword && this.mqttBroker == mqttBroker
      ensures this.mqttUsername == mqttUsername && this.mqttPassword == mqttPassword
      ensures this.mqttClientName == mqttClientName && this.mqttPort == mqttPort
      ensures mqttCleanSession && mqttLastWillTopic == None && mqttLastWillMessage == None && !mqttLastWillRetain
      ensures topicSubscriptionList == [] && effects == []
      ensures Valid()
    {
      this.wifiSsid := wifiSsid;
      this.wifiPassword := wifiPassword;
      this.mqttBroker := mqttBroker;
      this.mqttUsername := mqttUsername;
      this.mqttPassword := mqttPassword;
      this.mqttClientName := mqttClientName;
      this.mqttPort := mqttPort;
      handleWifi := wifiSsid.Some?;
      wifiConnected := false;
      connectingToWifi := false;
      nextWifiConnectionAttemptMillis := 500;
      lastWifiConnectionAttemptMillis := 0;
      wifiReconnectionAttemptDelay := 60 * 1000;
      mqttConnected := false;
      nextMqttConnectionAttemptMillis := 0;
      mqttReconnectionAttemptDelay := 15 * 1000;
      mqttLastWillTopic := None;
      mqttLastWillMessage := None;
      mqttLastWillRetain := false;
      mqttCleanSession := true;
      failedMqttConnectionAttemptCount := 0;
      topicSubscriptionList := [];
      connectionEstablishedCallback := DefaultEstablishedCallback;
      drasticResetOnConnectionFailures := false;
      connectionEstablishedCount := 0;
      firstLoopCall := true;
      restarted := false;
      effects := [];
    }

    /** The constructor without credentials: the same client with no MQTT
        user name and no password. */
    constructor Anonymous(wifiSsid: Option<string>, wifiPassword: Option<string>, mqttBroker: string,
                          mqttClientName: string := "ESP8266", mqttPort: int16 := 1883)
      ensures Snapshot() == Initial(wifiSsid.Some?)
      ensures this.wifiSsid == wifiSsid && this.wifiPassword == wifiPassword && this.mqttBroker == mqttBroker
      ensures mqttUsername == None && mqttPassword == None
      ensures this.mqttClientName == mqttClientName && this.mqttPort == mqttPort
      ensures mqttCleanSession && mqttLastWillTopic == None && mqttLastWillMessage == None && !mqttLastWillRetain
      ensures topicSubscriptionList == [] && effects == []
      ensures Valid()
    {
      this.wifiSsid := wifiSsid;
      this.wifiPassword := wifiPassword;
      this.mqttBroker := mqttBroker;
      this.mqttUsername := None;
      this.mqttPassword := None;
      this.mqttClientName := mqttClientName;
      this.mqttPort := mqttPort;
      handleWifi := wifiSsid.Some?;
      wifiConnected := false;
      connectingToWifi := false;
      nextWifiConnectionAttemptMillis := 500;
      lastWifiConnectionAttemptMillis := 0;
      wifiReconnectionAttemptDelay := 60 * 1000;
      mqttConnected := false;
      nextMqttConnectionAttemptMillis := 0;
      mqttReconnectionAttemptDelay := 15 * 1000;
      mqttLastWillTopic := None;
      mqttLastWillMessage := None;
      mqttLastWillRetain := false;
      mqttCleanSession := true;
      failedMqttConnectionAttemptCount := 0;
      topicSubscriptionList := [];
      connectionEstablishedCallback := DefaultEstablishedCallback;
      drasticResetOnConnectionFailures := false;
      connectionEstablishedCount := 0;
      firstLoopCall := true;
      restarted := false;
      effects := [];
    }

    // ----- Configuration -----

    /** `enableMQTTPersistence()`: ask the broker for a persistent session. */
    method EnableMqttPersistence()
      modifies this`mqttCleanSession
      ensures !mqttCleanSession
      ensures ConnectArguments() == old(ConnectArguments()).(cleanSession := false)
    {
      mqttCleanSession := false;
    }

    /** `enableLastWillMessage(topic, message, retain)`. */
    method EnableLastWillMessage(topic: string, message: string, retain: bool := false)
      modifies this`mqttLastWillTopic, this`mqttLastWillMessage, this`mqttLastWillRetain
      ensures ConnectArguments() ==
        old(ConnectArguments()).(willTopic := Some(topic), willMessage := Some(message), willRetain := retain)
    {
      mqttLastWillTopic := Some(topic);
      mqttLastWillMessage := Some(message);
      mqttLastWillRetain := retain;
    }

    /** `enableDrasticResetOnConnectionFailures()`: only the flag changes,
        and the escalation invariant survives. */
    method EnableDrasticResetOnConnectionFailures()
      modifies this`drasticResetOnConnectionFailures
      ensures drasticResetOnConnectionFailures
      ensures Snapshot() == old(Snapshot()).(escalation := old(Snapshot()).escalation.(drastic := true))
      ensures old(Valid()) ==> Valid()
    {
      drasticResetOnConnectionFailures := true;
    }

    /** `setOnConnectionEstablishedCallback(callback)`: only the callback changes. */
    method SetOnConnectionEstablishedCallback(callback: CallbackId)
      modifies this`connectionEstablishedCallback
      ensures Snapshot() == old(Snapshot()).(mqtt := old(Snapshot()).mqtt.(establishedCallback := callback))
      ensures old(Valid()) ==> Valid()
    {
      connectionEstablishedCallback := callback;
    }

    // ----- Main loop -----

    /** `loop()`: the Wi-Fi controller, then the MQTT controller only when the
        Wi-Fi controller reported no change. A restarted board runs no more. */
    method Loop(env: Env)
      requires !restarted && lastWifiConnectionAttemptMillis <= env.now
      modifies this`wifiConnected, this`connectingToWifi, this`lastWifiConnectionAttemptMillis,
        this`nextWifiConnectionAttemptMillis, this`nextMqttConnectionAttemptMillis, this`firstLoopCall,
        this`mqttConnected, this`failedMqttConnectionAttemptCount, this`connectionEstablishedCount,
        this`restarted, this`effects
      ensures var s := LoopTick(old(Snapshot()), env, ConnectArguments());
        Snapshot() == s.next && effects == old(effects) + s.effects
      ensures old(Valid()) ==> Valid()
    {
      ghost var c := Snapshot();
      var wifiStateChanged := HandleWifi(env);
      if wifiStateChanged {
        assert old(Valid()) ==> Valid() by {
          if old(Valid()) { LoopTickBounded(c, env, ConnectArguments()); }
        }
        return;
      }
      var mqttStateChanged := HandleMqtt(env);
      assert effects == old(effects) + LoopTick(c, env, ConnectArguments()).effects;
      assert old(Valid()) ==> Valid() by {
        if old(Valid()) { LoopTickBounded(c, env, ConnectArguments()); }
      }
      if mqttStateChanged {
        return;
      }
    }

    /** `handleWifi()`, proved to perform the Wi-Fi tick. */
    method HandleWifi(env: Env) returns (changed: bool)
      requires lastWifiConnectionAttemptMillis <= env.now
      modifies this`wifiConnected, this`connectingToWifi, this`lastWifiConnectionAttemptMillis,
        this`nextWifiConnectionAttemptMillis, this`nextMqttConnectionAttemptMillis, this`firstLoopCall,
        this`effects
      ensures var s := WifiTick(old(Snapshot()), env);
        Snapshot() == s.next && changed == s.changed && effects == old(effects) + s.effects
    {
      if handleWifi && firstLoopCall {
        effects := effects + [WifiDisconnect];
        nextWifiConnectionAttemptMillis := env.now + 500;
        firstLoopCall := false;
        return true;
      }

      var isWifiConnected := env.wifiStatus == Connected;
      HandleWifiState(env);

      if isWifiConnected != wifiConnected {
        wifiConnected := isWifiConnected;
        return true;
      }
      return false;
    }

    /** The state-detection part of `handleWifi()`: the first of the four
        branches that applies. */
    method HandleWifiState(env: Env)
      requires lastWifiConnectionAttemptMillis <= env.now
      modifies this`connectingToWifi, this`lastWifiConnectionAttemptMillis,
        this`nextWifiConnectionAttemptMillis, this`nextMqttConnectionAttemptMillis, this`effects
      ensures var b := WifiBranch(old(Snapshot()), env);
        Snapshot() == b.0 && effects == old(effects) + b.1
    {
      var isWifiConnected := env.wifiStatus == Connected;

      if isWifiConnected && !wifiConnected {
        // Connection established
        connectingToWifi := false;
        nextMqttConnectionAttemptMillis := env.now + 500;
      } else if connectingToWifi {
        // Connection in progress
        if env.wifiStatus == ConnectFailed || env.now - lastWifiConnectionAttemptMillis >= wifiReconnectionAttemptDelay {
          effects := effects + [WifiDisconnect];
          nextWifiConnectionAttemptMillis := env.now + 500;
          connectingToWifi := false;
        }
      } else if !isWifiConnected && wifiConnected {
        // Connection lost
        OnWifiConnectionLost();
        if handleWifi {
          nextWifiConnectionAttemptMillis := env.now + 500;
        }
      } else if handleWifi && nextWifiConnectionAttemptMillis > 0 && env.now >= nextWifiConnectionAttemptMillis {
        // Disconnected, and the attempt is due
        ConnectToWifi();
        nextWifiConnectionAttemptMillis := 0;
        connectingToWifi := true;
        lastWifiConnectionAttemptMillis := env.now;
      }
    }

    /** `onWiFiConnectionLost()`: a client that manages Wi-Fi resets the radio. */
    method OnWifiConnectionLost()
      modifies this`effects
      ensures effects == old(effects) + (if handleWifi then [WifiDisconnect] else [])
    {
      if handleWifi {
        effects := effects + [WifiDisconnect];
      }
    }

    /** `connectToWifi()`: the non-blocking connection request. */
    method ConnectToWifi()
      modifies this`effects
      ensures effects == old(effects) + [WifiBegin]
    {
      effects := effects + [WifiBegin];
    }

    /** `handleMQTT()`, proved to perform the MQTT tick. */
    method HandleMqtt(env: Env) returns (changed: bool)
      modifies this`mqttConnected, this`nextMqttConnectionAttemptMillis, this`failedMqttConnectionAttemptCount,
        this`nextWifiConnectionAttemptMillis, this`connectionEstablishedCount, this`restarted, this`effects
      ensures var s := MqttTick(old(Snapshot()), env, ConnectArguments());
        Snapshot() == s.next && changed == s.changed && effects == old(effects) + s.effects
    {
      effects := effects + [MqttLoop];

      var isMqttConnected := IsWifiConnected() && env.mqttClientConnected;
      HandleMqttState(env);

      if mqttConnected != isMqttConnected {
        mqttConnected := isMqttConnected;
        return true;
      }
      return false;
    }

    /** The state-detection part of `handleMQTT()`: the first of the three
        branches that applies. */
    method HandleMqttState(env: Env)
      modifies this`mqttConnected, this`nextMqttConnectionAttemptMillis, this`failedMqttConnectionAttemptCount,
        this`nextWifiConnectionAttemptMillis, this`connectionEstablishedCount, this`restarted, this`effects
      ensures var b := MqttBranch(old(Snapshot()), env, ConnectArguments());
        Snapshot() == b.0 && effects == old(effects) + b.1
    {
      var isMqttConnected := IsWifiConnected() && env.mqttClientConnected;

      if isMqttConnected && !mqttConnected {
        // Connection established
        mqttConnected := true;
        OnMqttConnectionEstablished();
      } else if !isMqttConnected && mqttConnected {
        // Connection lost
        nextMqttConnectionAttemptMillis := env.now + mqttReconnectionAttemptDelay;
      } else if IsWifiConnected() && nextMqttConnectionAttemptMillis > 0 && env.now >= nextMqttConnectionAttemptMillis {
        // The attempt is due
        ghost var c := Snapshot();
        var success := ConnectToMqttBroker(env.connectSucceeds);
        assert Snapshot() == c;
        if success {
          failedMqttConnectionAttemptCount := 0;
          nextMqttConnectionAttemptMillis := 0;
        } else {
          ghost var fx := effects;
          HandleFailedConnection(env.now);
          assert effects == fx + FailedAttempt(c, env.now).1;
        }
      }
    }

    /** A failed broker connection: schedule the next attempt, drop the
        half-open session, count the failure, and escalate at 8 and 12. */
    method HandleFailedConnection(now: nat)
      modifies this`nextMqttConnectionAttemptMillis, this`failedMqttConnectionAttemptCount,
        this`nextWifiConnectionAttemptMillis, this`restarted, this`effects
      ensures var f := FailedAttempt(old(Snapshot()), now);
        Snapshot() == f.0 && effects == old(effects) + f.1
    {
      nextMqttConnectionAttemptMillis := now + mqttReconnectionAttemptDelay;
      effects := effects + [MqttDisconnect];
      failedMqttConnectionAttemptCount := failedMqttConnectionAttemptCount + 1;
      if failedMqttConnectionAttemptCount == 8 {
        // Too many failures: reset Wi-Fi
        effects := effects + [WifiDisconnect];
        nextWifiConnectionAttemptMillis := now + 500;
        if !drasticResetOnConnectionFailures {
          failedMqttConnectionAttemptCount := 0;
        }
      } else if drasticResetOnConnectionFailures && failedMqttConnectionAttemptCount == 12 {
        // Still failing: restart the board
        effects := effects + [Restart];
        restarted := true;
      }
    }

    /** `onMQTTConnectionEstablished()`: count the connection and call the
        connection-established callback. */
    method OnMqttConnectionEstablished()
      modifies this`connectionEstablishedCount, this`effects
      ensures connectionEstablishedCount == old(connectionEstablishedCount) + 1
      ensures effects == old(effects) + [EstablishedCallback(connectionEstablishedCallback)]
    {
      connectionEstablishedCount := connectionEstablishedCount + 1;
      effects := effects + [EstablishedCallback(connectionEstablishedCallback)];
    }

    /** `connectToMqttBroker()`: the blocking connect call, whose result is
        `succeeds`. */
    method ConnectToMqttBroker(succeeds: bool) returns (success: bool)
      modifies this`effects
      ensures success == succeeds
      ensures effects == old(effects) + [MqttConnect(ConnectArguments())]
    {
      effects := effects + [MqttConnect(ConnectArguments())];
      success := succeeds;
    }

    // ----- Publish and subscribe -----

    /** `publish(type, topic, payload, retain)`: nothing happens unless the
        client is connected; otherwise the message goes to the full topic and
        the result is the library's, `transportOk`. */
    method Publish(kind: TopicType, topic: string, payload: string, transportOk: bool, retain: bool := false)
      returns (success: bool)
      modifies this`effects
      ensures !IsConnected() ==> !success && effects == old(effects)
      ensures IsConnected() ==>
        success == transportOk &&
        effects == old(effects) + [MqttPublish(BuildFullTopic(kind, mqttClientName, topic), payload, retain)]
    {
      if !IsConnected() {
        return false;
      }
      var fullTopic := BuildFullTopic(kind, mqttClientName, topic);
      effects := effects + [MqttPublish(fullTopic, payload, retain)];
      success := transportOk;
    }

    /** `subscribe(topic, callback, qos)`: nothing happens unless the client
        is connected; otherwise the library subscribes to the command topic,
        and on success a record is appended unless one with that topic is
        already there. */
    method Subscribe(topic: string, callback: Option<CallbackId>, transportOk: bool, qos: byte := 0)
      returns (success: bool)
      modifies this`topicSubscriptionList, this`effects
      ensures !IsConnected() ==> !success && effects == old(effects) && topicSubscriptionList == old(topicSubscriptionList)
      ensures IsConnected() ==>
        var fullTopic := BuildFullTopic(CMND, mqttClientName, topic);
        && success == transportOk
        && effects == old(effects) + [MqttSubscribe(fullTopic, qos)]
        && topicSubscriptionList ==
             if transportOk then AddIfAbsent(old(topicSubscriptionList), Record(fullTopic, callback, None))
             else old(topicSubscriptionList)
      ensures old(Valid()) ==> Valid()
    {
      if !IsConnected() {
        return false;
      }
      var fullTopic := BuildFullTopic(CMND, mqttClientName, topic);
      effects := effects + [MqttSubscribe(fullTopic, qos)];
      success := transportOk;
      if success {
        var found := false;
        var i := 0;
        while i < |topicSubscriptionList| && !found
          invariant 0 <= i <= |topicSubscriptionList|
          invariant found ==> HasTopic(topicSubscriptionList, fullTopic)
          invariant !found ==> forall j | 0 <= j < i :: topicSubscriptionList[j].topic != fullTopic
        {
          found := topicSubscriptionList[i].topic == fullTopic;
          i := i + 1;
        }
        if !found {
          topicSubscriptionList := topicSubscriptionList + [Record(fullTopic, callback, None)];
        }
      }
    }

    /** `subscribe(topic, callbackWithTopic, qos)`: subscribe without a
        payload-only callback, then give the LAST record the topic callback,
        which is the record on the topic only when the topic was new (see
        `PatchLastAgreesWhenFresh` and `PatchLastMissesTopic`). */
    method SubscribeWithTopic(topic: string, callback: Option<CallbackId>, transportOk: bool, qos: byte := 0)
      returns (success: bool)
      modifies this`topicSubscriptionList, this`effects
      ensures !IsConnected() ==> !success && effects == old(effects) && topicSubscriptionList == old(topicSubscriptionList)
      ensures IsConnected() ==>
        var fullTopic := BuildFullTopic(CMND, mqttClientName, topic);
        var added := AddIfAbsent(old(topicSubscriptionList), Record(fullTopic, None, None));
        && success == transportOk
        && effects == old(effects) + [MqttSubscribe(fullTopic, qos)]
        && topicSubscriptionList == if transportOk then PatchLast(added, callback) else old(topicSubscriptionList)
      ensures old(Valid()) ==> Valid()
    {
      var subscribed := Subscribe(topic, None, transportOk, qos);
      if subscribed {
        topicSubscriptionList := PatchLast(topicSubscriptionList, callback);
        return true;
      }
      return false;
    }

    /** `unsubscribe(topic)`: nothing happens unless the client is connected;
        otherwise every record on the command topic is erased, each after its
        own library call. `ack` is what each of those calls returns: when they
        succeed all such records are gone; when they fail the first one
        stops the walk, with false, and nothing is erased. With no such
        record the result is true and no call is made. */
    method Unsubscribe(topic: string, ack: bool) returns (success: bool)
      modifies this`topicSubscriptionList, this`effects
      ensures !IsConnected() ==> !success && effects == old(effects) && topicSubscriptionList == old(topicSubscriptionList)
      ensures IsConnected() ==>
        var fullTopic := BuildFullTopic(CMND, mqttClientName, topic);
        var n := CountTopic(old(topicSubscriptionList), fullTopic);
        if ack then
          && success
          && topicSubscriptionList == RemoveTopic(old(topicSubscriptionList), fullTopic)
          && effects == old(effects) + UnsubscribeCalls(fullTopic, n)
        else
          && success == (n == 0)
          && topicSubscriptionList == old(topicSubscriptionList)
          && effects == old(effects) + (if n == 0 then [] else [MqttUnsubscribe(fullTopic)])
      ensures old(Valid()) ==> Valid()
    {
      if !IsConnected() {
        return false;
      }
      var fullTopic := BuildFullTopic(CMND, mqttClientName, topic);
      if old(Valid()) {
        RemoveTopicUnique(topicSubscriptionList, fullTopic);
      }
      success := EraseSubscriptions(fullTopic, ack);
    }

    /** The erase loop of `unsubscribe`, over the records on `fullTopic`. */
    method EraseSubscriptions(fullTopic: string, ack: bool) returns (success: bool)
      modifies this`topicSubscriptionList, this`effects
      ensures var n := CountTopic(old(topicSubscriptionList), fullTopic);
        if ack then
          && success
          && topicSubscriptionList == RemoveTopic(old(topicSubscriptionList), fullTopic)
          && effects == old(effects) + UnsubscribeCalls(fullTopic, n)
        else
          && success == (n == 0)
          && topicSubscriptionList == old(topicSubscriptionList)
          && effects == old(effects) + (if n == 0 then [] else [MqttUnsubscribe(fullTopic)])
    {
      ghost var list := topicSubscriptionList;
      ghost var j := 0;  // the records of `list` looked at so far
      var records := topicSubscriptionList;
      var i := 0;
      while i < |records|
        invariant i <= j && |records| - i == |list| - j
        invariant ErasedUpTo(records, list, i, j, fullTopic)
        invariant effects == old(effects) + UnsubscribeCalls(fullTopic, j - i)
        invariant !ack ==> records == list && i == j
        invariant topicSubscriptionList == list
        decreases |records| - i
      {
        if records[i].topic == fullTopic {
          effects := effects + [MqttUnsubscribe(fullTopic)];
          if ack {
            EraseStep(records, list, i, j, fullTopic);
            records := records[..i] + records[i + 1..];
            i := i - 1;
          } else {
            PrefixStep(list, j, fullTopic);
            CountTopicZero(list, fullTopic);
            return false;
          }
        } else {
          SkipStep(records, list, i, j, fullTopic);
        }
        i := i + 1;
        j := j + 1;
      }
      assert list[..j] == list;
      assert records[..i] == records;
      RemoveTopicLength(list, fullTopic);
      topicSubscriptionList := records;
      return true;
    }

    // ----- Inbound messages -----

    /** `mqttMessageReceivedCallback(topic, payload, length)` for the
        delivered `payload` bytes and the library's buffer size: every
        matching record's callbacks are called in list order with the payload
        string; the list is unchanged. */
    method OnMessage(topic: string, payload: seq<byte>, bufferSize: nat)
      modifies this`effects
      ensures effects == old(effects) + DispatchEffects(topicSubscriptionList, topic, PayloadString(|topic|, payload, bufferSize))
    {
      var payloadStr := PayloadString(|topic|, payload, bufferSize);
      var list := topicSubscriptionList;
      ghost var start := effects;
      var i := 0;
      while i < |list|
        invariant 0 <= i <= |list|
        invariant effects == start + DispatchEffects(list[..i], topic, payloadStr)
      {
        DispatchStep(list, i, topic, payloadStr);
        SeqAssoc(start, DispatchEffects(list[..i], topic, payloadStr), RecordEffects(list[i], topic, payloadStr));
        Deliver(list[i], topic, payloadStr);
        i := i + 1;
      }
      assert list[..i] == list;
    }

    /** The body of the dispatch loop for one record: when its pattern
        matches, its payload-only callback, then its payload-and-topic
        callback, each if present. */
    method Deliver(record: Record, topic: string, payloadStr: seq<byte>)
      modifies this`effects
      ensures effects == old(effects) + RecordEffects(record, topic, payloadStr)
    {
      if TopicMatch(record.topic, topic) {
        if record.callback.Some? {
          effects := effects + [MessageCallback(record.callback.value, payloadStr)];
        }
        if record.callbackWithTopic.Some? {
          effects := effects + [TopicMessageCallback(record.callbackWithTopic.value, topic, payloadStr)];
        }
      }
    }
  }
}
