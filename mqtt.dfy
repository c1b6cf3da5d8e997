/**
 * The telemetry side of the counter: the topics and JSON payloads it
 * publishes (built with sprintf/itoa into fixed stack buffers), the client
 * name it connects with, and the decision of `publishMes` and `reconnect`
 * whether to reconnect, publish, or give up. The MQTT client and its network
 * are outside the model: what `connect` and `publish` answer is an input
 * (`Net`), and the client's observable effects are kept in a `Session`.
 */
module Mqtt {
  import opened Uint
  import Decimal
  import opened Format

  /** The topic buffer size of include/geiger.h. */
  const MqttTopicLength: nat := 40

  /** The configured topic is a C string held in `char mqttTopic[MQTT_TOPIC_LENGTH]`. */
  predicate TopicOk(t: string) {
    |t| < MqttTopicLength && forall i :: 0 <= i < |t| ==> t[i] != '\0'
  }

  // ---------------------------------------------------------------------
  // Formats and buffers
  // ---------------------------------------------------------------------

  /**
   * The discovery payload format, `configJson`: its literal text around the
   * `%s/%s` that receives the topic and "state". The pieces are kept short so
   * that facts about their characters stay cheap to check.
   */
  const NamePart: string := "{\"name\": \"GeigerCounter\","
  const StateTopicPart: string := "\"state_topic\": \""
  const UnitPart: string := "\", \"unit_of_measurement\": "
  const CountPart: string := "\"Count\", \"value_template\": "
  const TemplatePart: string := "\"{{ value_json.count}}\" }"
  const ConfigPrefix: string := NamePart + StateTopicPart
  const ConfigSuffix: string := UnitPart + CountPart + TemplatePart
  const ConfigJson: string := ConfigPrefix + "%s" + "/" + "%s" + ConfigSuffix

  /** The state payload format, `stateJson`. */
  const StateJson: string := "{\"count\":%s}"

  /** The topic format used by publishConfig and publishCount. */
  const TopicFormat: string := "%s/%s"

  /** The client-name format used by initMQTT. */
  const SubNameFormat: string := "geigercounter-%s"

  /** The error-message formats of reconnect and publishMes. */
  const ConnectErrorFormat: string := "MQTT Connection failed, rc=%d"
  const PublishErrorFormat: string := "MQTT Publish failed, rc=%d"

  /** `uint8_t configLen = strlen(configJson)`: the length taken modulo 256. */
  const ConfigLen: u8 := (|ConfigJson| % U8Limit) as u8

  /** `char payload[configLen + MQTT_TOPIC_LENGTH + 10]` in publishConfig. */
  const ConfigPayloadBufSize: nat := ConfigLen as nat + MqttTopicLength + 10
  /** `char topic[MQTT_TOPIC_LENGTH + 10]` in publishConfig and publishCount. */
  const TopicBufSize: nat := MqttTopicLength + 10
  /** `char payload[30]` and `char num[10]` in publishCount. */
  const StatePayloadBufSize: nat := 30
  const NumBufSize: nat := 10
  /** `char subName[25]`. */
  const SubNameBufSize: nat := 25
  /** `char errorMes[50]` in reconnect and publishMes. */
  const ErrorBufSize: nat := 50

  /** No piece of configJson's literal text holds a '%'. */
  lemma ConfigPartsLiteral()
    ensures Literal(ConfigPrefix) && Literal(ConfigSuffix)
  {
    PrefixNoPercent();
    SuffixNoPercent();
    NoConversion(ConfigPrefix);
    NoConversion(ConfigSuffix);
  }

  lemma PrefixNoPercent()
    ensures '%' !in NamePart && '%' !in StateTopicPart
  {
  }

  lemma SuffixNoPercent()
    ensures '%' !in UnitPart && '%' !in CountPart && '%' !in TemplatePart
  {
  }

  /** The lengths of configJson and its two literal parts. */
  lemma ConfigLengths()
    ensures |ConfigPrefix| == 41 && |ConfigSuffix| == 78 && |ConfigJson| == 124
  {
    assert |NamePart| == 25 && |StateTopicPart| == 16;
    assert |UnitPart| == 26 && |CountPart| == 27 && |TemplatePart| == 25;
  }

  /** configJson is its two literal parts around `%s/%s`, and it is short enough for a uint8_t. */
  lemma ConfigJsonShape()
    ensures ConfigJson == ConfigPrefix + "%s" + "/" + "%s" + ConfigSuffix
    ensures Literal(ConfigPrefix) && Literal(ConfigSuffix)
    ensures |ConfigPrefix| == 41 && |ConfigSuffix| == 78
    ensures |ConfigJson| == 124 && ConfigLen as int == |ConfigJson|
  {
    ConfigPartsLiteral();
    ConfigLengths();
  }

  /** The text sprintf writes, or the empty string where the format would be undefined. */
  function Written(r: Option<string>): string {
    match r
    case Some(s) => s
    case None => []
  }

  /** `sprintf(topic, "%s/%s", mqttTopic, leaf)`. */
  function FormatTopic(topic: string, leaf: string): (r: string)
    ensures r == topic + "/" + leaf
  {
    assert TopicFormat == "" + "%s" + "/" + "%s" + "";
    SprintfTwoStrings("", "/", "", topic, leaf);
    assert "" + topic + "/" + leaf + "" == topic + "/" + leaf;
    Written(Sprintf(TopicFormat, [Str(topic), Str(leaf)]))
  }

  function StateTopic(topic: string): (r: string)
    ensures r == topic + "/state"
  {
    FormatTopic(topic, "state")
  }

  function ConfigTopic(topic: string): (r: string)
    ensures r == topic + "/config"
  {
    FormatTopic(topic, "config")
  }

  /** publishCount's payload: `itoa(count, num, 10)` then `sprintf(payload, stateJson, num)`. */
  function StatePayload(count: u16): (r: string)
    ensures r == "{\"count\":" + Decimal.Itoa(count as nat) + "}"
    ensures |r| <= 15
  {
    assert StateJson == "{\"count\":" + "%s" + "}";
    SprintfOneString("{\"count\":", "}", Decimal.Itoa(count as nat));
    Decimal.U16Digits(count as nat);
    Written(Sprintf(StateJson, [Str(Decimal.Itoa(count as nat))]))
  }

  /** publishConfig's payload: `sprintf(payload, configJson, mqttTopic, "state")`. */
  function ConfigPayload(topic: string): (r: string)
    ensures |r| == ConfigLen as int + |topic| + 1
  {
    ConfigPayloadWritten(topic);
    Written(Sprintf(ConfigJson, [Str(topic), Str("state")]))
  }

  /** The config payload is configJson with `<topic>/state` in place of its two conversions. */
  lemma ConfigPayloadText(topic: string)
    ensures ConfigPayload(topic) == ConfigPrefix + StateTopic(topic) + ConfigSuffix
  {
    ConfigPayloadWritten(topic);
  }

  lemma ConfigPayloadWritten(topic: string)
    ensures Sprintf(ConfigJson, [Str(topic), Str("state")]) == Some(ConfigPrefix + StateTopic(topic) + ConfigSuffix)
    ensures |ConfigPrefix + StateTopic(topic) + ConfigSuffix| == ConfigLen as int + |topic| + 1
  {
    ConfigJsonShape();
    SprintfTwoStrings(ConfigPrefix, "/", ConfigSuffix, topic, "state");
    assert ConfigPrefix + topic + "/" + "state" + ConfigSuffix == ConfigPrefix + (topic + "/state") + ConfigSuffix;
  }

  /** initMQTT's client name: `sprintf(subName, "geigercounter-%s", &mac[9])`. */
  function SubName(mac: string): (r: string)
    requires |mac| >= 9
    ensures r == "geigercounter-" + mac[9..]
  {
    assert SubNameFormat == "geigercounter-" + "%s" + "";
    SprintfOneString("geigercounter-", "", mac[9..]);
    assert "geigercounter-" + mac[9..] + "" == "geigercounter-" + mac[9..];
    Written(Sprintf(SubNameFormat, [Str(mac[9..])]))
  }

  /** reconnect's message when connecting fails. */
  function ConnectError(rc: int): (r: string)
    ensures r == "MQTT Connection failed, rc=" + Decimal.FormatInt(rc)
  {
    assert ConnectErrorFormat == "MQTT Connection failed, rc=" + "%d" + "";
    SprintfOneInt("MQTT Connection failed, rc=", "", rc);
    assert "MQTT Connection failed, rc=" + Decimal.FormatInt(rc) + "" == "MQTT Connection failed, rc=" + Decimal.FormatInt(rc);
    Written(Sprintf(ConnectErrorFormat, [Int(rc)]))
  }

  /** publishMes's message when the broker rejects a publish. */
  function PublishError(rc: int): (r: string)
    ensures r == "MQTT Publish failed, rc=" + Decimal.FormatInt(rc)
  {
    assert PublishErrorFormat == "MQTT Publish failed, rc=" + "%d" + "";
    SprintfOneInt("MQTT Publish failed, rc=", "", rc);
    assert "MQTT Publish failed, rc=" + Decimal.FormatInt(rc) + "" == "MQTT Publish failed, rc=" + Decimal.FormatInt(rc);
    Written(Sprintf(PublishErrorFormat, [Int(rc)]))
  }

  /**
   * Every fixed buffer of publishCount and publishConfig is large enough
   * for what sprintf/itoa write into it, terminator included, whenever the
   * configured topic fits its own buffer.
   */
  lemma BuffersFit(topic: string, count: u16)
    requires TopicOk(topic)
    ensures |StateTopic(topic)| + 1 == |topic| + 7 <= TopicBufSize
    ensures |ConfigTopic(topic)| + 1 == |topic| + 8 <= TopicBufSize
    ensures |ConfigPayload(topic)| + 1 == ConfigLen as int + |topic| + 2 <= ConfigPayloadBufSize
    ensures |Decimal.Itoa(count as nat)| + 1 <= NumBufSize
    ensures |StatePayload(count)| + 1 <= StatePayloadBufSize
  {
    Decimal.U16Digits(count as nat);
  }

  /** For a MAC address in its 17-character form the client name has 22 characters and fits subName[25]. */
  lemma SubNameFits(mac: string)
    requires |mac| == 17
    ensures |SubName(mac)| == 22 && |SubName(mac)| + 1 <= SubNameBufSize
  {
  }

  /** Both error messages fit errorMes[50] for every int return code. */
  lemma ErrorMessagesFit(rc: int)
    requires -0x8000_0000 <= rc < 0x8000_0000
    ensures |ConnectError(rc)| + 1 <= ErrorBufSize
    ensures |PublishError(rc)| + 1 <= ErrorBufSize
  {
    Decimal.I32Width(rc);
  }

  // ---------------------------------------------------------------------
  // Reading the discovery payload back
  // ---------------------------------------------------------------------

  /** `pat` occurs in `s` at position `i`. */
  predicate StartsAt(s: string, pat: string, i: nat) {
    i + |pat| <= |s| && s[i..i + |pat|] == pat
  }

  /** The first position at or after `from` where `pat` occurs in `s`. */
  function Find(s: string, pat: string, from: nat): (r: Option<nat>)
    ensures r.Some? ==> from <= r.value && StartsAt(s, pat, r.value)
    ensures r.Some? ==> forall i :: from <= i < r.value ==> !StartsAt(s, pat, i)
    ensures r.None? ==> forall i :: from <= i ==> !StartsAt(s, pat, i)
    decreases |s| - from
  {
    if from + |pat| > |s| then None
    else if StartsAt(s, pat, from) then Some(from)
    else Find(s, pat, from + 1)
  }

  /** The characters of `s` from `from` up to (not including) the next double quote. */
  function UntilQuote(s: string, from: nat): (r: string)
    ensures forall i :: 0 <= i < |r| ==> r[i] != '"'
    decreases |s| - from
  {
    if from >= |s| || s[from] == '"' then [] else [s[from]] + UntilQuote(s, from + 1)
  }

  /**
   * A character that stands for itself inside a JSON string: not a double
   * quote, not a backslash and not a control character.
   */
  predicate PlainChar(c: char) {
    c != '"' && c != '\\' && c >= ' '
  }

  /** A text that JSON reads back unchanged when it is put between quotes. */
  predicate JsonPlain(t: string) {
    forall i :: 0 <= i < |t| ==> PlainChar(t[i])
  }

  /**
   * The raw characters of the first `"key": "value"` pair in a JSON text, up
   * to the next quote. No escape sequence is decoded, so this is the value a
   * JSON parser reads exactly when the characters read are JsonPlain.
   */
  function StringField(json: string, key: string): Option<string> {
    var pat := "\"" + key + "\": \"";
    match Find(json, pat, 0)
    case Some(i) => Some(UntilQuote(json, i + |pat|))
    case None => None
  }

  /** Find moves over positions that do not start the pattern. */
  lemma {:induction false} FindSkips(s: string, pat: string, from: nat, to: nat)
    requires from <= to && to + |pat| <= |s|
    requires forall i :: from <= i < to ==> !StartsAt(s, pat, i)
    ensures Find(s, pat, from) == Find(s, pat, to)
    decreases (to as int) - (from as int)
  {
    if from < to {
      FindSkips(s, pat, from + 1, to);
    }
  }

  /** UntilQuote reads a quote-free stretch that is followed by a quote. */
  lemma {:induction false} UntilQuoteReads(s: string, from: nat, u: string)
    requires from + |u| < |s| && s[from..from + |u|] == u && s[from + |u|] == '"'
    requires forall i :: 0 <= i < |u| ==> u[i] != '"'
    ensures UntilQuote(s, from) == u
    decreases |u|
  {
    if u != [] {
      assert s[from] == u[0];
      assert s[from + 1..from + 1 + |u[1..]|] == u[1..];
      UntilQuoteReads(s, from + 1, u[1..]);
    }
  }

  const StateTopicKey: string := "state_topic"

  /**
   * The discovery payload names the state topic: a consumer reading its
   * "state_topic" field gets exactly `<topic>/state`, the topic publishCount
   * publishes to, provided JSON reads the topic literally: the firmware
   * escapes nothing, so a quote, a backslash or a control character in the
   * topic would be read as something else.
   */
  lemma ConfigNamesStateTopic(topic: string)
    requires JsonPlain(topic)
    ensures StringField(ConfigPayload(topic), StateTopicKey) == Some(StateTopic(topic))
    ensures JsonPlain(StateTopic(topic))
  {
    var u := StateTopic(topic);
    StateTopicPlain(topic);
    StateTopicValueRead(u);
    ConfigPayloadText(topic);
    Regroup(ConfigPrefix, u, ConfigSuffix);
  }

  /** Appending "/state" keeps a JSON-plain topic plain. */
  lemma StateTopicPlain(topic: string)
    requires JsonPlain(topic)
    ensures JsonPlain(StateTopic(topic))
  {
    var u := StateTopic(topic);
    forall i | 0 <= i < |u|
      ensures PlainChar(u[i])
    {
      if i >= |topic| {
        assert u[i] == "/state"[i - |topic|];
      }
    }
  }

  /** Whatever quote-free text sits between the two halves of configJson is read back as state_topic. */
  lemma StateTopicValueRead(u: string)
    requires forall i :: 0 <= i < |u| ==> u[i] != '"'
    ensures StringField(ConfigPrefix + (u + ConfigSuffix), StateTopicKey) == Some(u)
  {
    StateTopicKeyFound(u + ConfigSuffix);
    SuffixOpensWithQuote();
    ValueBetween(ConfigPrefix, u, ConfigSuffix);
    ConfigLengths();
    FieldAt(ConfigPrefix + (u + ConfigSuffix), StateTopicKey, 25, u);
  }

  /** The text after the topic starts by closing its quotes. */
  lemma SuffixOpensWithQuote()
    ensures |ConfigSuffix| > 0 && ConfigSuffix[0] == '"'
  {
    assert ConfigSuffix[0] == UnitPart[0];
  }

  /** The field is the quoted text that follows the first occurrence of its key. */
  lemma FieldAt(p: string, key: string, i: nat, u: string)
    requires Find(p, "\"" + key + "\": \"", 0) == Some(i)
    requires UntilQuote(p, i + |key| + 5) == u
    ensures StringField(p, key) == Some(u)
  {
  }

  /** A quote-free value placed right before a quote is read back exactly. */
  lemma ValueBetween(prefix: string, u: string, suffix: string)
    requires |suffix| > 0 && suffix[0] == '"'
    requires forall i :: 0 <= i < |u| ==> u[i] != '"'
    ensures UntilQuote(prefix + (u + suffix), |prefix|) == u
  {
    var p := prefix + (u + suffix);
    assert p[|prefix|..|prefix| + |u|] == u;
    assert p[|prefix| + |u|] == suffix[0];
    UntilQuoteReads(p, |prefix|, u);
  }

  /** In any text that starts with ConfigPrefix, the "state_topic" key is found first at position 25. */
  lemma StateTopicKeyFound(rest: string)
    ensures Find(ConfigPrefix + rest, "\"" + StateTopicKey + "\": \"", 0) == Some(25)
  {
    var pat := "\"" + StateTopicKey + "\": \"";
    assert pat == StateTopicPart;
    assert |NamePart| == 25 && pat[0] == '"' && pat[1] == 's' && 's' !in NamePart;
    FirstMatchAfter(NamePart, pat, rest);
    Regroup(NamePart, StateTopicPart, rest);
  }

  /**
   * A pattern whose second character occurs neither in the text before it
   * nor as its own first character is found first right after that text.
   */
  lemma FirstMatchAfter(a: string, pat: string, rest: string)
    requires |pat| >= 2 && pat[1] != pat[0] && pat[1] !in a
    ensures Find(a + (pat + rest), pat, 0) == Some(|a|)
  {
    var p := a + (pat + rest);
    forall i | 0 <= i < |a| ensures !StartsAt(p, pat, i) {
      if i + |pat| <= |p| {
        assert p[i..i + |pat|][1] == p[i + 1];
        if i + 1 < |a| {
          assert p[i + 1] == a[i + 1];
        } else {
          assert p[i + 1] == pat[0];
        }
      }
    }
    assert p[|a|..|a| + |pat|] == pat;
    FindSkips(p, pat, 0, |a|);
  }

  /** The example: topic "geiger1" is announced with state topic "geiger1/state". */
  lemma ConfigExample()
    ensures StringField(ConfigPayload("geiger1"), StateTopicKey) == Some("geiger1/state")
  {
    ConfigNamesStateTopic("geiger1");
    assert StateTopic("geiger1") == "geiger1" + "/state" == "geiger1/state";
  }

  // ---------------------------------------------------------------------
  // The publish decision
  // ---------------------------------------------------------------------

  datatype Message = Message(topic: string, payload: string, retained: bool)

  /** One call of the client's publish and whether the broker accepted it. */
  datatype Publish = Publish(msg: Message, accepted: bool)

  /** The discovery message publishConfig sends: retained, on `<topic>/config`. */
  function ConfigMessage(topic: string): (m: Message)
    ensures m.retained && m.topic == topic + "/config"
    ensures |m.payload| == ConfigLen as int + |topic| + 1
  {
    Message(ConfigTopic(topic), ConfigPayload(topic), true)
  }

  /** The reading publishCount sends: not retained, on `<topic>/state`. */
  function CountMessage(topic: string, count: u16): (m: Message)
    ensures !m.retained && m.topic == topic + "/state"
    ensures m.payload == "{\"count\":" + Decimal.Itoa(count as nat) + "}"
  {
    Message(StateTopic(topic), StatePayload(count), false)
  }

  /**
   * What the client and broker answer during one publish call: the result
   * of `connect` (asked only when disconnected), the broker's answer to the
   * discovery message that a successful reconnect sends first, its answer
   * to the message being published, and the client's `state()` code.
   */
  datatype Net = Net(connectOk: bool, configAccepted: bool, accepted: bool, rc: int) {
    /** The answers seen by the publishConfig that reconnect makes. */
    function ForDiscovery(): Net {
      Net(connectOk, configAccepted, configAccepted, rc)
    }
  }

  /** The client as the core sees it: connected or not, how often it tried to connect, what it published, what it reported. */
  datatype Session = Session(connected: bool, connectAttempts: nat, outbox: seq<Publish>, errors: seq<string>)

  /** A publish on a connected client; a rejection is reported on the display, never retried. */
  function Send(s: Session, msg: Message, accepted: bool, rc: int): (r: Session)
    ensures r.connected == s.connected && r.connectAttempts == s.connectAttempts
    ensures |r.outbox| == |s.outbox| + 1 && r.outbox[..|s.outbox|] == s.outbox
    ensures r.outbox[|s.outbox|] == Publish(msg, accepted)
    ensures accepted <==> r.errors == s.errors
    ensures !accepted ==> r.errors == s.errors + [PublishError(rc)]
  {
    s.(outbox := s.outbox + [Publish(msg, accepted)],
       errors := s.errors + if accepted then [] else [PublishError(rc)])
  }

  /** reconnect: one connect attempt; on success the discovery message, on failure the status report. */
  function AfterReconnect(s: Session, topic: string, net: Net): (r: Session)
    ensures r.connectAttempts == s.connectAttempts + 1
    ensures r.connected == net.connectOk
  {
    var s1 := s.(connectAttempts := s.connectAttempts + 1);
    if net.connectOk then Send(s1.(connected := true), ConfigMessage(topic), net.configAccepted, net.rc)
    else s1.(connected := false, errors := s1.errors + [ConnectError(net.rc)])
  }

  /** publishMes: reconnect once if disconnected, give up if still disconnected, else publish once. */
  function AfterPublishMes(s: Session, topic: string, msg: Message, net: Net): (r: (Session, bool))
    ensures r.1 ==> r.0.connected && |r.0.outbox| > 0 && r.0.outbox[|r.0.outbox| - 1] == Publish(msg, true)
    ensures |s.outbox| <= |r.0.outbox| && r.0.outbox[..|s.outbox|] == s.outbox
  {
    var s1 := if s.connected then s else AfterReconnect(s, topic, net);
    if !s1.connected then (s1, false)
    else (Send(s1, msg, net.accepted, net.rc), net.accepted)
  }

  /** reconnect publishes the discovery message only after a successful connect, and nothing after a failed one. */
  lemma ReconnectPublishesConfigOnlyOnSuccess(s: Session, topic: string, net: Net)
    ensures var r := AfterReconnect(s, topic, net);
      && (net.connectOk ==> r.outbox == s.outbox + [Publish(ConfigMessage(topic), net.configAccepted)])
      && (!net.connectOk ==> r.outbox == s.outbox && r.errors == s.errors + [ConnectError(net.rc)])
  {
  }

  /** publishMes reconnects exactly once when disconnected and never when connected. */
  lemma PublishReconnectsOnce(s: Session, topic: string, msg: Message, net: Net)
    ensures AfterPublishMes(s, topic, msg, net).0.connectAttempts == s.connectAttempts + if s.connected then 0 else 1
  {
  }

  /** publishMes reports success exactly when the client is connected after the one attempt and the broker accepts. */
  lemma PublishResult(s: Session, topic: string, msg: Message, net: Net)
    ensures AfterPublishMes(s, topic, msg, net).1 <==> (s.connected || net.connectOk) && net.accepted
    ensures AfterPublishMes(s, topic, msg, net).0.connected <==> s.connected || net.connectOk
  {
  }

  /** Still disconnected after the attempt: false, nothing published, the connect failure reported. */
  lemma PublishGivesUpWhenDown(s: Session, topic: string, msg: Message, net: Net)
    requires !s.connected && !net.connectOk
    ensures var (r, ok) := AfterPublishMes(s, topic, msg, net);
      !ok && r.outbox == s.outbox && r.errors == s.errors + [ConnectError(net.rc)] && !r.connected
  {
  }

  /**
   * The message itself is sent exactly once when connected (a rejection is
   * reported and not retried), preceded by the discovery message when the
   * call had to reconnect.
   */
  lemma PublishSendsOnce(s: Session, topic: string, msg: Message, net: Net)
    requires s.connected || net.connectOk
    ensures var (r, ok) := AfterPublishMes(s, topic, msg, net);
      && r.outbox == s.outbox
                     + (if s.connected then [] else [Publish(ConfigMessage(topic), net.configAccepted)])
                     + [Publish(msg, net.accepted)]
      && (!net.accepted ==> !ok && r.errors[|r.errors| - 1] == PublishError(net.rc))
      && (net.accepted ==> ok && r.errors == AfterReconnectErrors(s, topic, net))
  {
  }

  /** The errors reported by the reconnect part of a publish call (none when already connected). */
  function AfterReconnectErrors(s: Session, topic: string, net: Net): seq<string> {
    if s.connected then s.errors else AfterReconnect(s, topic, net).errors
  }

  /** The hourly publishConfig on a disconnected client sends the discovery message twice once it reconnects. */
  lemma ConfigPublishedTwiceOnReconnect(s: Session, topic: string, net: Net)
    requires !s.connected && net.connectOk
    ensures AfterPublishMes(s, topic, ConfigMessage(topic), net).0.outbox ==
      s.outbox + [Publish(ConfigMessage(topic), net.configAccepted), Publish(ConfigMessage(topic), net.accepted)]
  {
  }

  // ---------------------------------------------------------------------
  // The client object
  // ---------------------------------------------------------------------

  /** `mqttClient` together with the globals mqtt.cpp reads (mqttTopic, mqttServer, mqttPort) and subName. */
  class MqttLink {
    var topic: string
    var server: string
    var port: u16
    var subName: string
    var connected: bool
    var connectAttempts: nat
    var outbox: seq<Publish>
    var errors: seq<string>

    ghost predicate Valid()
      reads this
    {
      TopicOk(topic)
    }

    function View(): Session
      reads this
    {
      Session(connected, connectAttempts, outbox, errors)
    }

    /** The client before it first connects, configured as initMQTT does. */
    constructor (server: string, port: u16, topic: string, mac: string)
      requires TopicOk(topic) && |mac| >= 9
      ensures Valid()
      ensures this.topic == topic && this.server == server && this.port == port
      ensures subName == SubName(mac)
      ensures View() == Session(false, 0, [], [])
    {
      this.topic := topic;
      this.server := server;
      this.port := port;
      subName := SubName(mac);
      connected := false;
      connectAttempts := 0;
      outbox := [];
      errors := [];
    }

    /**
     * The server, port and topic written by the configuration portal. The
     * port is the portal's text after `atoi` and the narrowing to uint16_t.
     */
    method SetPortal(s: string, p: u16, t: string)
      requires TopicOk(t)
      modifies this
      ensures Valid() && server == s && port == p && topic == t
      ensures subName == old(subName)
      ensures View() == old(View())
    {
      server := s;
      port := p;
      topic := t;
    }

    /** The broker or the network drops the connection: the client now reports `connected()` false. */
    method ConnectionLost()
      requires Valid()
      modifies this
      ensures Valid()
      ensures topic == old(topic) && server == old(server) && port == old(port) && subName == old(subName)
      ensures View() == old(View()).(connected := false)
    {
      connected := false;
    }

    method Reconnect(net: Net)
      requires Valid()
      modifies this
      ensures Valid()
      ensures topic == old(topic) && server == old(server) && port == old(port) && subName == old(subName)
      ensures View() == AfterReconnect(old(View()), topic, net)
      decreases 2
    {
      connectAttempts := connectAttempts + 1;
      if net.connectOk {
        connected := true;
        var _ := PublishConfig(net.ForDiscovery());
      } else {
        connected := false;
        errors := errors + [ConnectError(net.rc)];
      }
    }

    method PublishMes(msg: Message, net: Net) returns (ok: bool)
      requires Valid()
      modifies this
      ensures Valid()
      ensures topic == old(topic) && server == old(server) && port == old(port) && subName == old(subName)
      ensures (View(), ok) == AfterPublishMes(old(View()), topic, msg, net)
      decreases if connected then 0 else 3
    {
      if !connected {
        Reconnect(net);
      }
      if !connected {
        return false;
      }
      ghost var s1 := View();
      ok := net.accepted;
      outbox := outbox + [Publish(msg, ok)];
      if !ok {
        errors := errors + [PublishError(net.rc)];
      } else {
        assert errors == s1.errors + [];
      }
      assert View() == Send(s1, msg, net.accepted, net.rc);
    }

    method PublishConfig(net: Net) returns (ok: bool)
      requires Valid()
      modifies this
      ensures Valid()
      ensures topic == old(topic) && server == old(server) && port == old(port) && subName == old(subName)
      ensures (View(), ok) == AfterPublishMes(old(View()), topic, ConfigMessage(topic), net)
      decreases if connected then 1 else 4
    {
      var payload := ConfigPayload(topic);
      var t := ConfigTopic(topic);
      ok := PublishMes(Message(t, payload, true), net);
    }

    method PublishCount(count: u16, net: Net) returns (ok: bool)
      requires Valid()
      modifies this
      ensures Valid()
      ensures topic == old(topic) && server == old(server) && port == old(port) && subName == old(subName)
      ensures (View(), ok) == AfterPublishMes(old(View()), topic, CountMessage(topic, count), net)
    {
      var payload := StatePayload(count);
      var t := StateTopic(topic);
      ok := PublishMes(Message(t, payload, false), net);
    }
  }
}
