/** The topic namespace: every topic the client publishes to or subscribes to
    is `<kind>/<client name>/<relative topic>`. */
module Topics {
  import opened Types

  /** The three kinds of topic: commands, state and telemetry. */
  datatype TopicType = CMND | STAT | TELE

  /** The literal first segment of each kind, separator included. */
  function Prefix(kind: TopicType): (p: string)
    ensures |p| == 5 && p[4] == '/'
  {
    match kind
    case CMND => "cmnd/"
    case STAT => "stat/"
    case TELE => "tele/"
  }

  /** The fully qualified topic for a relative topic of the given kind. */
  function BuildFullTopic(kind: TopicType, clientName: string, topic: string): (r: string)
    ensures |r| == |Prefix(kind)| + |clientName| + 1 + |topic|
  {
    Prefix(kind) + clientName + "/" + topic
  }

  /** The kind whose prefix is `p`, if any. */
  function KindOf(p: string): (k: Option<TopicType>)
    ensures k.Some? ==> Prefix(k.value) == p
    ensures forall kind: TopicType :: Prefix(kind) == p ==> k == Some(kind)
  {
    if p == "cmnd/" then Some(CMND)
    else if p == "stat/" then Some(STAT)
    else if p == "tele/" then Some(TELE)
    else None
  }

  /** Splits a fully qualified topic of client `clientName` back into its kind
      and relative topic; None when `full` is not of that shape. */
  function ParseFullTopic(full: string, clientName: string): Option<(TopicType, string)>
  {
    var n := |clientName|;
    if |full| < 6 + n then None
    else
      match KindOf(full[..5])
      case None => None
      case Some(kind) =>
        if full[5..5 + n] == clientName && full[5 + n] == '/' then Some((kind, full[6 + n..]))
        else None
  }

  /** Parsing undoes building. */
  lemma ParseBuild(kind: TopicType, clientName: string, topic: string)
    ensures ParseFullTopic(BuildFullTopic(kind, clientName, topic), clientName) == Some((kind, topic))
  {
    var full := BuildFullTopic(kind, clientName, topic);
    var n := |clientName|;
    assert full[..5] == Prefix(kind);
    assert full[5..5 + n] == clientName;
    assert full[5 + n] == '/';
    assert full[6 + n..] == topic;
  }

  /** Every topic that parses is the topic built from its parts. */
  lemma BuildParse(full: string, clientName: string, kind: TopicType, topic: string)
    requires ParseFullTopic(full, clientName) == Some((kind, topic))
    ensures BuildFullTopic(kind, clientName, topic) == full
  {
    var n := |clientName|;
    assert full == full[..5] + full[5..5 + n] + [full[5 + n]] + full[6 + n..];
  }

  /** Distinct kinds or distinct relative topics give distinct full topics. */
  lemma BuildInjective(k1: TopicType, t1: string, k2: TopicType, t2: string, clientName: string)
    requires BuildFullTopic(k1, clientName, t1) == BuildFullTopic(k2, clientName, t2)
    ensures k1 == k2 && t1 == t2
  {
    ParseBuild(k1, clientName, t1);
    ParseBuild(k2, clientName, t2);
  }

  /** The telemetry topic of the radar example device. */
  lemma RadarTelemetryTopic()
    ensures BuildFullTopic(TELE, "office_radar_1", "present") == "tele/office_radar_1/present"
  {
  }
}
