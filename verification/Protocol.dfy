/** The Python side: which monitoring profiles are accepted (gateway_code/profile.py) and which command is
    sent for each request (cn_protocol.py). */
module Protocol {
  import opened Dict
  import opened Scanf
  import opened Channels

  const PERIODS := [140, 204, 332, 588, 1100, 2116, 4156, 8244]
  const AVERAGES := [1, 4, 16, 64, 128, 256, 512, 1024]

  /** Consumption settings; the three flags are any integers, only tested for truth. */
  datatype Consumption = Consumption(source: string, period: int, average: int,
                                     power: int, voltage: int, current: int)

  datatype Radio = Rssi(channels: seq<int>, period: int, num: int) | Sniffer(channels: seq<int>, period: int)

  /** Consumption.__init__; None stands for a failed assertion. */
  function NewConsumption(alim: string, source: string, period: Option<int>, average: Option<int>,
                          power: int, voltage: int, current: int): (r: Option<Consumption>)
    ensures r.Some? ==> ValidConsumption(r.value)
  {
    if period.None? || average.None? then None
    else if period.value !in PERIODS || average.value !in AVERAGES then None
    else if alim != "3.3V" && alim != "5V" then None
    else Some(Consumption(if source == "dc" then alim else "BATT", period.value, average.value,
                          power, voltage, current))
  }

  /** Radio.__init__ and _is_valid, which replaces a missing sniffer period by 0. */
  function NewRadio(mode: string, channels: seq<int>, period: Option<int>, num: Option<int>)
    : (r: Option<Radio>)
    ensures r.Some? ==> ValidRadio(r.value)
  {
    if channels == [] || !AllChannels(channels) then None
    else if mode == "rssi" then
      if period.None? || !(|channels| == 1 || num != Some(0)) then None
      else if !(1 <= period.value < 65536) || num.None? || !(0 <= num.value < 256) then None
      else Some(Rssi(channels, period.value, num.value))
    else if mode == "sniffer" then
      var p := if period.None? then 0 else period.value;
      if !(0 <= p < 65536) || (p != 0) != (|channels| != 1) || num.Some? then None
      else Some(Sniffer(channels, p))
    else None
  }

  predicate ValidConsumption(c: Consumption)
  {
    (c.source == "3.3V" || c.source == "5V" || c.source == "BATT") && c.period in PERIODS && c.average in AVERAGES
  }

  predicate ValidRadio(r: Radio)
  {
    && r.channels != [] && AllChannels(r.channels)
    && match r
       case Rssi(channels, period, num) =>
         1 <= period < 65536 && 0 <= num < 256 && (|channels| == 1 || num != 0)
       case Sniffer(channels, period) => 0 <= period < 65536 && (period != 0 <==> |channels| != 1)
  }

  /** The checks refuse nothing else: every valid setting is that of some arguments. */
  lemma EveryValidConsumption(c: Consumption)
    requires ValidConsumption(c)
    ensures var (alim, source) := if c.source == "BATT" then ("3.3V", "battery") else (c.source, "dc");
            NewConsumption(alim, source, Some(c.period), Some(c.average), c.power, c.voltage, c.current) == Some(c)
  {
  }

  lemma EveryValidRadio(r: Radio)
    requires ValidRadio(r)
    ensures match r
            case Rssi(channels, period, num) => NewRadio("rssi", channels, Some(period), Some(num)) == Some(r)
            case Sniffer(channels, period) =>
              && NewRadio("sniffer", channels, Some(period), None) == Some(r)
              && (period == 0 ==> NewRadio("sniffer", channels, None, None) == Some(r))
  {
  }

  /** The calls of the Protocol class; alim is 'dc' or 'battery' for a valid profile. */
  datatype Request =
    | Power(on: bool, alim: string)
    | Time
    | NodeNumber(archi: string, num: nat)
    | LedOn
    | LedBlink
    | Monitor(consumption: Option<Consumption>)
    | RadioConfig(radio: Option<Radio>)

  function ToSet(channels: seq<int>): (s: set<int>)
  {
    set c | c in channels
  }

  function ConsumptionArgs(o: Option<Consumption>): (r: seq<Arg>)
  {
    match o
    case Some(c) =>
      if c.power == 0 && c.voltage == 0 && c.current == 0 then [W("config_consumption_measure"), W("stop")]
      else [W("config_consumption_measure"), W("start"), W(c.source), W("p"), N(c.power), W("v"), N(c.voltage),
            W("c"), N(c.current), W("-p"), N(c.period), W("-a"), N(c.average)]
    case None => [W("config_consumption_measure"), W("stop")]
  }

  function RadioArgs(o: Option<Radio>): (r: seq<Arg>)
  {
    match o
    case None => [W("config_radio_stop")]
    case Some(Rssi(channels, period, num)) =>
      [W("config_radio_measure"), W(ListText(ToSet(channels))), N(period), N(num)]
    case Some(Sniffer(channels, period)) =>
      [W("config_radio_sniffer"), W(ListText(ToSet(channels))), N(period)]
  }

  /** The command list; its text is the arguments joined by spaces. */
  function Args(req: Request): (r: seq<Arg>)
    ensures |r| > 0 && r[0].W?
  {
    match req
    case Power(on, alim) => [W(if on then "start" else "stop"), W(alim)]
    case Time => [W("set_time")]
    case NodeNumber(archi, num) => [W("set_node_id"), W(archi), N(num)]
    case LedOn => [W("green_led_on")]
    case LedBlink => [W("green_led_blink")]
    case Monitor(c) => ConsumptionArgs(c)
    case RadioConfig(r) => RadioArgs(r)
  }

  function CommandName(req: Request): (s: string)
  {
    Args(req)[0].word
  }

  /** send_cmd: success exactly when the answer is the command name followed by ACK. */
  function SendCmdResult(command: string, answer: Option<seq<string>>): (ret: int)
  {
    if answer == Some([command, "ACK"]) then 0 else 1
  }
}
