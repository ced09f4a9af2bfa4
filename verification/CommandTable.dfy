/** The byte values of the protocol (constants.h) and the tables of command_reader.c. */
module CommandTable {
  import opened Bytes
  import opened Dict
  import opened Scanf

  const OPEN_NODE_STOP: byte := 0x10
  const OPEN_NODE_START: byte := 0x11
  const SET_TIME: byte := 0x20
  const SET_NODE_ID: byte := 0x21
  const GREEN_LED_ON: byte := 0x35
  const GREEN_LED_BLINK: byte := 0x36
  const CONFIG_RADIO_STOP: byte := 0xC0
  const CONFIG_RADIO_MEAS: byte := 0xC1
  const CONFIG_RADIO_SNIFFER: byte := 0xC3
  const CONFIG_CONSUMPTION: byte := 0xCC
  const LOGGER_FRAME: byte := 0xEE
  const ACK_FRAME: byte := 0xFA
  const RADIO_MEAS_FRAME: byte := 0xF1
  const RADIO_SNIFFER_FRAME: byte := 0xF3
  const CONSUMPTION_FRAME: byte := 0xFC

  const ACK: byte := 0xA
  const NACK: byte := 0x2
  const STOP: byte := 0
  const START: byte := 1

  const ALIM_D := [Entry("dc", 2), Entry("dc_charge", 1), Entry("battery", 0)]

  const ARCHI_D := [Entry("m3", 3), Entry("a8", 8)]

  const PERIODS_D := [Entry("140", 0), Entry("204", 1), Entry("332", 2), Entry("588", 3),
                      Entry("1100", 4), Entry("2116", 5), Entry("4156", 6), Entry("8244", 7)]

  const AVERAGE_D := [Entry("1", 0), Entry("4", 0x10), Entry("16", 0x20), Entry("64", 0x30),
                      Entry("128", 0x40), Entry("256", 0x50), Entry("512", 0x60), Entry("1024", 0x70)]

  const POWER_SOURCE_D := [Entry("3.3V", 0x10), Entry("5V", 0x20), Entry("BATT", 0x40)]

  const RADIO_POWER_D := [Entry("3dBm", 38), Entry("2.8dBm", 37), Entry("2.3dBm", 36), Entry("1.8dBm", 34),
                          Entry("1.3dBm", 33), Entry("0.7dBm", 31), Entry("0dBm", 30), Entry("-1dBm", 29),
                          Entry("-2dBm", 28), Entry("-3dBm", 27), Entry("-4dBm", 26), Entry("-5dBm", 25),
                          Entry("-7dBm", 23), Entry("-9dBm", 21), Entry("-12dBm", 18), Entry("-17dBm", 13)]

  const ACK_D := [Entry("ACK", ACK), Entry("NACK", NACK)]

  const STATE_D := [Entry("start", START), Entry("stop", STOP)]

  const COMMANDS_D := [
    Entry("error", LOGGER_FRAME),
    Entry("start", OPEN_NODE_START),
    Entry("stop", OPEN_NODE_STOP),
    Entry("set_time", SET_TIME),
    Entry("set_node_id", SET_NODE_ID),
    Entry("green_led_on", GREEN_LED_ON),
    Entry("green_led_blink", GREEN_LED_BLINK),
    Entry("config_radio_stop", CONFIG_RADIO_STOP),
    Entry("config_radio_measure", CONFIG_RADIO_MEAS),
    Entry("config_radio_sniffer", CONFIG_RADIO_SNIFFER),
    Entry("config_consumption_measure", CONFIG_CONSUMPTION),
    Entry("test_radio_ping_pong", 0x73),
    Entry("test_gpio", 0x71),
    Entry("test_i2c", 0x72),
    Entry("test_pps", 0x74),
    Entry("test_got_pps", 0x76)]

  datatype Handler =
    | Alim | Consumption | RadioMeasure | RadioSniffer | NoArgs | SetTime | SetNodeId | StartStop | RadioPingPong

  datatype Description = Description(fmt: seq<Field>, count: nat, handler: Handler)

  const CONSUMPTION_FMT :=
    [Lit("config_consumption_measure"), Str(8), Str(8), Lit("p"), Int, Lit("v"), Int, Lit("c"), Int,
     Lit("-p"), Str(8), Lit("-a"), Str(8)]

  const COMMANDS := [
    Description([Lit("start"), Str(8)], 1, Alim),
    Description([Lit("stop"), Str(8)], 1, Alim),
    Description(CONSUMPTION_FMT, 7, Consumption),
    Description([Lit("config_consumption_measure"), Str(8)], 1, Consumption),
    Description([Lit("config_radio_measure"), Str(256), Int, Int], 3, RadioMeasure),
    Description([Lit("config_radio_sniffer"), Str(256), Int], 2, RadioSniffer),
    Description([Lit("config_radio_stop")], 0, NoArgs),
    Description([Lit("set_time")], 0, SetTime),
    Description([Lit("set_node_id"), Str(8), Int], 2, SetNodeId),
    Description([Lit("green_led_on")], 0, NoArgs),
    Description([Lit("green_led_blink")], 0, NoArgs),
    Description([Lit("test_gpio"), Str(8)], 1, StartStop),
    Description([Lit("test_i2c"), Str(8)], 1, StartStop),
    Description([Lit("test_pps"), Str(8)], 1, StartStop),
    Description([Lit("test_got_pps")], 0, NoArgs),
    Description([Lit("test_radio_ping_pong"), Str(8), Int, Str(8)], 3, RadioPingPong),
    Description([Lit("test_radio_ping_pong"), Str(8)], 1, RadioPingPong)]

  /** The position of a command name, from its length and two of its characters. */
  function Position(s: string): (i: int)
  {
    match |s|
    case 4 => 2
    case 5 => if s[0] == 'e' then 0 else 1
    case 8 => if s[0] == 's' then 3 else if s[7] == 'c' then 13 else 14
    case 9 => 12
    case 11 => 4
    case 12 => if s[0] == 'g' then 5 else 15
    case 15 => 6
    case 17 => 7
    case 20 => if s[0] == 't' then 11 else if s[19] == 'e' then 8 else 9
    case _ => 10
  }

  lemma CommandNamesDiffer()
    ensures |COMMANDS_D| == 16
    ensures forall i :: 0 <= i < |COMMANDS_D| ==> Position(COMMANDS_D[i].str) == i
  {
    assert Position("error") == 0 && Position("start") == 1 && Position("stop") == 2;
    assert Position("set_time") == 3 && Position("set_node_id") == 4;
    assert Position("green_led_on") == 5 && Position("green_led_blink") == 6;
    assert Position("config_radio_stop") == 7 && Position("config_radio_measure") == 8;
    assert Position("config_radio_sniffer") == 9 && Position("config_consumption_measure") == 10;
    assert Position("test_radio_ping_pong") == 11 && Position("test_gpio") == 12;
    assert Position("test_i2c") == 13 && Position("test_pps") == 14 && Position("test_got_pps") == 15;
  }

  lemma CommandValuesDiffer()
    ensures forall i, j :: 0 <= i < j < |COMMANDS_D| ==> COMMANDS_D[i].val != COMMANDS_D[j].val
  {
  }

  /** The shipped tables have unique keys and values, as utils.h asks. */
  lemma CommandsAreUnique()
    ensures Unique(COMMANDS_D)
  {
    var d := COMMANDS_D;
    CommandNamesDiffer();
    CommandValuesDiffer();
    forall i, j | 0 <= i < j < |d|
      ensures d[i].str != d[j].str && d[i].val != d[j].val
    {
      assert Position(d[i].str) == i && Position(d[j].str) == j;
    }
  }

  lemma SmallTablesAreUnique()
    ensures Unique(ACK_D) && Unique(STATE_D) && Unique(POWER_SOURCE_D) && Unique(ALIM_D) && Unique(ARCHI_D)
  {
  }

  lemma ScalesAreUnique()
    ensures Unique(PERIODS_D) && Unique(AVERAGE_D)
  {
  }

  /** Looking up a row of the command table, in both directions. */
  lemma CommandRow(i: nat)
    requires i < 16
    ensures |COMMANDS_D| == 16
    ensures ValOf(COMMANDS_D, COMMANDS_D[i].str) == Some(COMMANDS_D[i].val)
    ensures KeyOf(COMMANDS_D, COMMANDS_D[i].val) == Some(COMMANDS_D[i].str)
  {
    var d := COMMANDS_D;
    CommandsAreUnique();
    CommandNamesDiffer();
    assert d[i] in d && d[i] == Entry(d[i].str, d[i].val);
    Inverse(d, d[i].str, d[i].val);
  }

  /** No command byte looks like a measure frame, so no answer is sent to the measure handler. */
  lemma NoCommandIsAsync(key: string, val: byte)
    requires ValOf(COMMANDS_D, key) == Some(val)
    ensures val / 16 != 0xF
  {
    var d := COMMANDS_D;
    assert Entry(key, val) in d;
    CommandRangesBelowAsync();
  }

  lemma CommandRangesBelowAsync()
    ensures forall i :: 0 <= i < |COMMANDS_D| ==> COMMANDS_D[i].val / 16 != 0xF
  {
  }
}
