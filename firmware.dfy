/**
 * The firmware's global state and the code of main.cpp that changes it:
 * the 10-second processing task, the two interrupt service routines, the
 * chirp ticker's callback, one pass of the main loop and the over-the-air
 * progress callback. Each method performs its update in place and is proved
 * against the value-level specification in modules Window, Button, Chirp and
 * Flash. Interrupts are atomic calls made between loop steps.
 */
module Firmware {
  import opened Uint
  import W = Window
  import Button
  import Chirp
  import Flash
  import Display
  import Mqtt
  import Format

  /** What the display shows last, as far as main.cpp decides it. */
  datatype Panel = Cleared | Flashing | Counts(screen: Display.Screen)

  /** The answers of the Ticker library's `update()` in one loop pass: whether each task's period has elapsed. */
  datatype Due = Due(processer: bool, chirpTicker: bool, confSender: bool)

  /** What the configuration portal hands back: mqttServer, mqttPort (after atoi) and mqttTopic. */
  datatype Portal = Portal(server: string, port: u16, topic: string)

  /** The transport's answers for the publish calls one loop pass can make. */
  datatype Nets = Nets(count: Mqtt.Net, config: Mqtt.Net)

  /**
   * The discovery and state messages one loop pass sends: the reading of the
   * processing task (if it ran) and then the hourly discovery message (if it ran).
   */
  function LoopSession(s: Mqtt.Session, topic: string, reading: Format.Option<u16>, config: bool, nets: Nets): (r: Mqtt.Session)
    ensures reading.None? && !config ==> r == s
    ensures |s.outbox| <= |r.outbox| && r.outbox[..|s.outbox|] == s.outbox
    ensures |r.outbox| <= |s.outbox| + (if reading.Some? then 2 else 0) + (if config then 2 else 0)
  {
    var s1 := if reading.Some? then Mqtt.AfterPublishMes(s, topic, Mqtt.CountMessage(topic, reading.value), nets.count).0 else s;
    if config then Mqtt.AfterPublishMes(s1, topic, Mqtt.ConfigMessage(topic), nets.config).0 else s1
  }

  /**
   * When the reading and the hourly discovery message fall in the same loop
   * pass on a connected client, the reading goes out first and the discovery
   * message right after it, with no reconnect in between.
   */
  lemma LoopPublishOrder(s: Mqtt.Session, topic: string, v: u16, nets: Nets)
    requires s.connected
    ensures var r := LoopSession(s, topic, Format.Some(v), true, nets);
      && r.outbox == s.outbox + [Mqtt.Publish(Mqtt.CountMessage(topic, v), nets.count.accepted),
                                 Mqtt.Publish(Mqtt.ConfigMessage(topic), nets.config.accepted)]
      && r.connectAttempts == s.connectAttempts && r.connected
  {
  }

  class Firmware {
    /** `volatile uint16_t counters[6]` */
    const counters: array<u16>
    var cntIdx: u8
    var maxCount: u16
    var minCount: u16
    var fullMin: bool
    var chirp: bool
    var buttonLongPress: bool
    var lastPressTime: u32
    var flashToggle: u8
    /** The piezo output driven by chirp_on/chirp_off. */
    var piezoOn: bool
    /** Whether the three Ticker objects are running. */
    var processerRunning: bool
    var chirpTickerRunning: bool
    var confSenderRunning: bool
    var panel: Panel
    /** The MQTT client with mqttServer, mqttPort and mqttTopic. */
    const link: Mqtt.MqttLink

    ghost predicate Valid()
      reads this, counters, link
    {
      counters.Length == W.Slots && cntIdx as nat < W.Slots && link.Valid()
    }

    /** The rolling window held by counters, cntIdx, fullMin, minCount and maxCount. */
    function State(): W.Window
      reads this, counters
    {
      W.Window(counters[..], cntIdx as nat, fullMin, minCount, maxCount)
    }

    function Press(): Button.Press
      reads this
    {
      Button.Press(lastPressTime, buttonLongPress)
    }

    function ChirpState(): Chirp.Chirp
      reads this
    {
      Chirp.Chirp(chirp, piezoOn, chirpTickerRunning)
    }

    /**
     * Boot and setup(): the globals start zero-initialised (minCount at
     * 0xffff), initMQTT configures the client with the stored or entered
     * settings, and the processing and discovery tickers are started.
     */
    constructor (server: string, port: u16, topic: string, mac: string)
      requires Mqtt.TopicOk(topic) && |mac| >= 9
      ensures Valid() && fresh(counters) && fresh(link)
      ensures State() == W.Boot()
      ensures Press() == Button.BootPress && ChirpState() == Chirp.BootChirp && flashToggle == 0
      ensures processerRunning && confSenderRunning && panel == Cleared
      ensures link.topic == topic && link.server == server && link.port == port && link.subName == Mqtt.SubName(mac)
      ensures link.View() == Mqtt.Session(false, 0, [], [])
    {
      counters := new u16[W.Slots](_ => 0);
      cntIdx := 0;
      maxCount := 0;
      minCount := W.MinSentinel;
      fullMin := false;
      chirp := false;
      buttonLongPress := false;
      lastPressTime := 0;
      flashToggle := 0;
      piezoOn := false;
      chirpTickerRunning := false;
      panel := Cleared;
      link := new Mqtt.MqttLink(server, port, topic, mac);
      processerRunning := true;
      confSenderRunning := true;
      new;
      assert counters[..] == [0, 0, 0, 0, 0, 0];
    }

    /**
     * processCounts: the window advances as W.Tick says, the display gets the
     * total with the new minimum and maximum, and the vacated slot's count is
     * published on the state topic.
     */
    method ProcessCounts(net: Mqtt.Net) returns (published: bool)
      requires Valid()
      modifies this, counters, link
      ensures Valid()
      ensures var r := W.Tick(old(State()));
        && State() == r.next
        && panel == Counts(Display.DisplayCounts(r.total, r.next.minCount, r.next.maxCount))
        && (link.View(), published) == Mqtt.AfterPublishMes(old(link.View()), link.topic, Mqtt.CountMessage(link.topic, r.reading), net)
      ensures link.topic == old(link.topic) && link.server == old(link.server)
      ensures link.port == old(link.port) && link.subName == old(link.subName)
      ensures Press() == old(Press()) && ChirpState() == old(ChirpState()) && flashToggle == old(flashToggle)
      ensures processerRunning == old(processerRunning) && confSenderRunning == old(confSenderRunning)
    {
      var prevIdx, totCnt := Rotate();
      panel := Counts(Display.DisplayCounts(totCnt, minCount, maxCount));
      published := link.PublishCount(counters[prevIdx], net);
    }

    /**
     * The state update of processCounts, lines up to the zeroing of the new
     * slot: returns prevIdx and totCnt.
     */
    method Rotate() returns (prevIdx: u8, totCnt: u16)
      requires Valid()
      modifies this, counters
      ensures Valid()
      ensures var r := W.Tick(old(State()));
        State() == r.next && totCnt == r.total && prevIdx as nat == r.vacated && counters[prevIdx] == r.reading
      ensures Press() == old(Press()) && ChirpState() == old(ChirpState()) && flashToggle == old(flashToggle)
      ensures processerRunning == old(processerRunning) && confSenderRunning == old(confSenderRunning)
      ensures panel == old(panel)
    {
      ghost var r := W.Tick(State());
      prevIdx := cntIdx;
      cntIdx := cntIdx + 1;
      if cntIdx == 6 {
        cntIdx := 0;
        fullMin := true;
      }
      assert cntIdx as nat == r.next.idx && fullMin == r.next.fullMin;

      totCnt := SumSlots();
      assert totCnt == r.total;

      if fullMin && totCnt < minCount {
        minCount := totCnt;
      }
      if totCnt > maxCount {
        maxCount := totCnt;
      }
      assert minCount == r.next.minCount && maxCount == r.next.maxCount;
      counters[cntIdx] := 0;
      assert counters[..] == r.next.slots;
      assert counters[prevIdx] == r.reading;
    }

    /** The loop `for (n = 0; n < 6; n++) totCnt += counters[n];` of processCounts, in uint16_t. */
    method SumSlots() returns (totCnt: u16)
      requires counters.Length == W.Slots
      ensures totCnt == W.Sum16(counters[..])
      ensures totCnt as int == W.Total(counters[..]) % U16Limit
    {
      totCnt := 0;
      for n := 0 to 6
        invariant totCnt == W.Sum16(counters[..n])
      {
        assert counters[..n + 1][..n] == counters[..n];
        totCnt := Add16(totCnt, counters[n]);
      }
      assert counters[..6] == counters[..];
    }

    /** geigerCount: one pulse counted in the active slot, and a chirp requested. */
    method GeigerCount()
      requires Valid()
      modifies this, counters
      ensures Valid()
      ensures State() == W.Pulse(old(State()))
      ensures ChirpState() == Chirp.Pulse(old(ChirpState()))
      ensures Press() == old(Press()) && flashToggle == old(flashToggle) && panel == old(panel)
      ensures processerRunning == old(processerRunning) && confSenderRunning == old(confSenderRunning)
    {
      counters[cntIdx] := Inc16(counters[cntIdx]);
      chirp := true;
    }

    /** longPress, with the pin level read and millis() as inputs. */
    method LongPress(released: bool, now: u32)
      requires Valid()
      modifies this
      ensures Valid()
      ensures Press() == Button.LongPress(old(Press()), released, now)
      ensures State() == old(State()) && ChirpState() == old(ChirpState())
      ensures flashToggle == old(flashToggle) && panel == old(panel)
      ensures processerRunning == old(processerRunning) && confSenderRunning == old(confSenderRunning)
    {
      if released {
        if Sub32(now, lastPressTime) > Button.LongPressMs {
          buttonLongPress := true;
        }
      } else {
        lastPressTime := now;
        buttonLongPress := false;
      }
    }

    /** chirpOff, the callback of chirpTicker. */
    method ChirpOff()
      requires Valid()
      modifies this
      ensures Valid()
      ensures ChirpState() == Chirp.Off(old(ChirpState()))
      ensures State() == old(State()) && Press() == old(Press())
      ensures flashToggle == old(flashToggle) && panel == old(panel)
      ensures processerRunning == old(processerRunning) && confSenderRunning == old(confSenderRunning)
    {
      chirpTickerRunning := false;
      piezoOn := false;
    }

    /** The ArduinoOTA progress callback: step flash_toggle and show or clear "FLASH". */
    method OtaProgress()
      requires Valid()
      modifies this
      ensures Valid()
      ensures flashToggle == Flash.Step(old(flashToggle))
      ensures panel == if Flash.Shows(flashToggle) then Flashing else Cleared
      ensures State() == old(State()) && Press() == old(Press()) && ChirpState() == old(ChirpState())
      ensures processerRunning == old(processerRunning) && confSenderRunning == old(confSenderRunning)
    {
      flashToggle := Inc8(flashToggle);
      if flashToggle == 6 {
        flashToggle := 0;
      }
      if flashToggle / 3 != 0 {
        panel := Flashing;
      } else {
        panel := Cleared;
      }
    }

    /**
     * One pass of loop(): a long press opens the configuration portal, whose
     * result (`portal`) becomes mqttServer, mqttPort and mqttTopic, and clears the flag; then the
     * three tickers' callbacks run if they are running and their period is
     * due; finally a pending chirp is consumed.
     */
    method Loop(portal: Portal, due: Due, nets: Nets)
      requires Valid() && Mqtt.TopicOk(portal.topic)
      modifies this, counters, link
      ensures Valid()
      ensures !buttonLongPress && lastPressTime == old(lastPressTime)
      ensures link.topic == if old(buttonLongPress) then portal.topic else old(link.topic)
      ensures link.server == if old(buttonLongPress) then portal.server else old(link.server)
      ensures link.port == if old(buttonLongPress) then portal.port else old(link.port)
      ensures var tick := due.processer && old(processerRunning);
        && State() == (if tick then W.Tick(old(State())).next else old(State()))
        && link.View() == LoopSession(old(link.View()), link.topic,
                                      if tick then Format.Some(W.Tick(old(State())).reading) else Format.None,
                                      due.confSender && old(confSenderRunning), nets)
      ensures var c := old(ChirpState());
        ChirpState() == Chirp.Consume(if due.chirpTicker && c.tickerRunning then Chirp.Off(c) else c)
      ensures var r := W.Tick(old(State()));
        panel == if due.processer && old(processerRunning) then Counts(Display.DisplayCounts(r.total, r.next.minCount, r.next.maxCount))
                 else if old(buttonLongPress) then Cleared
                 else old(panel)
      ensures link.subName == old(link.subName)
      ensures processerRunning == old(processerRunning) && confSenderRunning == old(confSenderRunning)
      ensures flashToggle == old(flashToggle)
    {
      ServeLongPress(portal);
      RunTickers(due, nets);
      ConsumeChirp();
    }

    /**
     * The head of loop(): a raised long-press flag opens the portal, whose
     * server, port and topic are adopted and which ends by clearing the
     * display, and is cleared.
     */
    method ServeLongPress(portal: Portal)
      requires Valid() && Mqtt.TopicOk(portal.topic)
      modifies this, link
      ensures Valid()
      ensures !buttonLongPress && lastPressTime == old(lastPressTime)
      ensures link.topic == if old(buttonLongPress) then portal.topic else old(link.topic)
      ensures link.server == if old(buttonLongPress) then portal.server else old(link.server)
      ensures link.port == if old(buttonLongPress) then portal.port else old(link.port)
      ensures link.View() == old(link.View()) && link.subName == old(link.subName)
      ensures panel == if old(buttonLongPress) then Cleared else old(panel)
      ensures State() == old(State()) && ChirpState() == old(ChirpState()) && flashToggle == old(flashToggle)
      ensures processerRunning == old(processerRunning) && confSenderRunning == old(confSenderRunning)
    {
      if buttonLongPress {
        link.SetPortal(portal.server, portal.port, portal.topic);
        panel := Cleared;
        buttonLongPress := false;
      }
    }

    /**
     * `processer.update()`, `chirpTicker.update()`, `mqttConfSender.update()`:
     * each callback runs when its ticker is running and its period is due.
     * A ticker that is not running does not fire.
     */
    method RunTickers(due: Due, nets: Nets)
      requires Valid()
      modifies this, counters, link
      ensures Valid()
      ensures Press() == old(Press()) && link.topic == old(link.topic)
      ensures var tick := due.processer && old(processerRunning);
        && State() == (if tick then W.Tick(old(State())).next else old(State()))
        && link.View() == LoopSession(old(link.View()), link.topic,
                                      if tick then Format.Some(W.Tick(old(State())).reading) else Format.None,
                                      due.confSender && old(confSenderRunning), nets)
      ensures var c := old(ChirpState());
        ChirpState() == if due.chirpTicker && c.tickerRunning then Chirp.Off(c) else c
      ensures var r := W.Tick(old(State()));
        panel == if due.processer && old(processerRunning) then Counts(Display.DisplayCounts(r.total, r.next.minCount, r.next.maxCount))
                 else old(panel)
      ensures link.server == old(link.server) && link.port == old(link.port) && link.subName == old(link.subName)
      ensures processerRunning == old(processerRunning) && confSenderRunning == old(confSenderRunning)
      ensures flashToggle == old(flashToggle)
    {
      if processerRunning && due.processer {
        var _ := ProcessCounts(nets.count);
      }
      if chirpTickerRunning && due.chirpTicker {
        ChirpOff();
      }
      if confSenderRunning && due.confSender {
        var _ := link.PublishConfig(nets.config);
      }
    }

    /** The tail of loop(): a pending chirp is cleared, the piezo turned on and chirpTicker started. */
    method ConsumeChirp()
      requires Valid()
      modifies this
      ensures Valid()
      ensures ChirpState() == Chirp.Consume(old(ChirpState()))
      ensures State() == old(State()) && Press() == old(Press()) && flashToggle == old(flashToggle) && panel == old(panel)
      ensures processerRunning == old(processerRunning) && confSenderRunning == old(confSenderRunning)
    {
      if chirp {
        chirp := false;
        piezoOn := true;
        chirpTickerRunning := true;
      }
    }
  }
}
