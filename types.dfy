/** Values shared by every part of the model of EspHomeClient: machine integer
    widths, the opaque callback handles, what one tick observes of the outside
    world, and the effects the client performs on it (in the order it performs
    them). */
module Types {

  datatype Option<T> = None | Some(value: T)

  /** An 8-bit unsigned byte (`byte`, `uint8_t`). */
  newtype byte = x: int | 0 <= x < 256

  /** A 32-bit `unsigned int`, as on the ESP8266 and the ESP32. */
  newtype uint32 = x: int | 0 <= x < 0x1_0000_0000

  /** A 16-bit `short`, the type of the broker port. */
  newtype int16 = x: int | -0x8000 <= x < 0x8000

  /** A `std::function` handed in by the application, known only by identity. */
  type CallbackId = nat

  /** The application's global `onConnectionEstablished()`, the default
      connection-established callback. */
  const DefaultEstablishedCallback: CallbackId := 0

  /** What `WiFi.status()` reports; the two codes the client tests for, and
      every other code (idle, no SSID, disconnected, lost, ...) as one. */
  datatype WifiStatus = Connected | ConnectFailed | Disconnected

  /** What one call of `loop()` observes: the time `millis()`, the radio's
      status, whether the MQTT library still holds a session, and what the
      blocking broker-connect call would return if it were made. */
  datatype Env = Env(now: nat, wifiStatus: WifiStatus, mqttClientConnected: bool, connectSucceeds: bool)

  /** The arguments of the broker-connect call: client name, credentials, last
      will (QoS always 0) and the clean-session flag. */
  datatype ConnectArgs = ConnectArgs(
    clientName: string,
    username: Option<string>,
    password: Option<string>,
    willTopic: Option<string>,
    willQos: byte,
    willRetain: bool,
    willMessage: Option<string>,
    cleanSession: bool)

  /** One call the client makes into its collaborators. */
  datatype Effect =
    | WifiDisconnect                     // WiFi.disconnect(true)
    | WifiBegin                          // connectToWifi(): mode, hostname, WiFi.begin(ssid, password)
    | MqttLoop                           // mqtt_client_.loop()
    | MqttConnect(args: ConnectArgs)     // mqtt_client_.connect(...)
    | MqttDisconnect                     // mqtt_client_.disconnect()
    | EstablishedCallback(callback: CallbackId)
    | Restart                            // ESP.reset() / ESP.restart()
    | MqttPublish(topic: string, message: string, retain: bool)
    | MqttSubscribe(topic: string, qos: byte)
    | MqttUnsubscribe(topic: string)
    | MessageCallback(callback: CallbackId, payload: seq<byte>)
    | TopicMessageCallback(callback: CallbackId, topic: string, payload: seq<byte>)
}
