/** From an accepted profile to bytes that mean the same thing to the device. */
module Compilation {
  import opened Bytes
  import opened Text
  import opened Scanf
  import opened CommandTable
  import opened CommandReader
  import opened Selection

  // ----- Each command name selects its own entry ------------------------------------------------

  lemma BeforeStop(args: seq<Arg>)
    requires args != [] && args[0] == W("stop")
    ensures |COMMANDS| == 17 && Formats(COMMANDS) && !Matches(Line(args), COMMANDS[0])
  {
    NothingBefore(COMMANDS, args, [2]);
  }

  lemma BeforeConsumption(args: seq<Arg>)
    requires args != [] && args[0] == W("config_consumption_measure")
    ensures |COMMANDS| == 17 && Formats(COMMANDS)
    ensures forall j :: 0 <= j < 2 ==> !Matches(Line(args), COMMANDS[j])
  {
    NothingBefore(COMMANDS, args, [0, 0]);
  }

  lemma BeforeRadioMeasure(args: seq<Arg>)
    requires args != [] && args[0] == W("config_radio_measure")
    ensures |COMMANDS| == 17 && Formats(COMMANDS)
    ensures forall j :: 0 <= j < 4 ==> !Matches(Line(args), COMMANDS[j])
  {
    NothingBefore(COMMANDS, args, [0, 0, 7, 7]);
  }

  lemma BeforeRadioSniffer(args: seq<Arg>)
    requires args != [] && args[0] == W("config_radio_sniffer")
    ensures |COMMANDS| == 17 && Formats(COMMANDS)
    ensures forall j :: 0 <= j < 5 ==> !Matches(Line(args), COMMANDS[j])
  {
    NothingBefore(COMMANDS, args, [0, 0, 7, 7, 13]);
  }

  lemma BeforeRadioStop(args: seq<Arg>)
    requires args != [] && args[0] == W("config_radio_stop")
    ensures |COMMANDS| == 17 && Formats(COMMANDS)
    ensures forall j :: 0 <= j < 6 ==> !Matches(Line(args), COMMANDS[j])
  {
    NothingBefore(COMMANDS, args, [0, 0, 7, 7, 13, 14]);
  }

  lemma BeforeSetTime(args: seq<Arg>)
    requires args != [] && args[0] == W("set_time")
    ensures |COMMANDS| == 17 && Formats(COMMANDS)
    ensures forall j :: 0 <= j < 7 ==> !Matches(Line(args), COMMANDS[j])
  {
    NothingBefore(COMMANDS, args, [1, 1, 0, 0, 0, 0, 0]);
  }

  lemma BeforeSetNodeId(args: seq<Arg>)
    requires args != [] && args[0] == W("set_node_id")
    ensures |COMMANDS| == 17 && Formats(COMMANDS)
    ensures forall j :: 0 <= j < 8 ==> !Matches(Line(args), COMMANDS[j])
  {
    NothingBefore(COMMANDS, args, [1, 1, 0, 0, 0, 0, 0, 4]);
  }

  lemma BeforeGreenLedOn(args: seq<Arg>)
    requires args != [] && args[0] == W("green_led_on")
    ensures |COMMANDS| == 17 && Formats(COMMANDS)
    ensures forall j :: 0 <= j < 9 ==> !Matches(Line(args), COMMANDS[j])
  {
    NothingBefore(COMMANDS, args, [0, 0, 0, 0, 0, 0, 0, 0, 0]);
  }

  lemma BeforeGreenLedBlink(args: seq<Arg>)
    requires args != [] && args[0] == W("green_led_blink")
    ensures |COMMANDS| == 17 && Formats(COMMANDS)
    ensures forall j :: 0 <= j < 10 ==> !Matches(Line(args), COMMANDS[j])
  {
    NothingBefore(COMMANDS, args, [0, 0, 0, 0, 0, 0, 0, 0, 0, 10]);
  }

  lemma BeforePingPong(args: seq<Arg>)
    requires args != [] && args[0] == W("test_radio_ping_pong")
    ensures |COMMANDS| == 17 && Formats(COMMANDS)
    ensures forall j :: 0 <= j < 15 ==> !Matches(Line(args), COMMANDS[j])
  {
    NothingBefore(COMMANDS, args, [0, 0, 0, 0, 0, 0, 0, 0, 0, 0, 0, 5, 5, 5, 5]);
  }

  // ----- Each entry, with the byte of its command name ------------------------------------------

  lemma RowNamed(w: string, row: nat, val: byte)
    requires row < |COMMANDS_D| == 16 && COMMANDS_D[row].str == w && COMMANDS_D[row].val == val
    requires ' ' !in w && |w| <= 32
    ensures Named(COMMANDS_D, w, val)
  {
    CommandRow(row);
  }

  lemma LedOnReady(args: seq<Arg>) returns (r: seq<Conv>)
    requires |args| == 1 && args[0] == W("green_led_on")
    ensures Ready(COMMANDS, args, 9, NoArgs, r)
  {
    BeforeGreenLedOn(args);
    r := BareReady(COMMANDS, args, 9);
  }

  lemma LedBlinkReady(args: seq<Arg>) returns (r: seq<Conv>)
    requires |args| == 1 && args[0] == W("green_led_blink")
    ensures Ready(COMMANDS, args, 10, NoArgs, r)
  {
    BeforeGreenLedBlink(args);
    r := BareReady(COMMANDS, args, 10);
  }

  lemma TimeReady(args: seq<Arg>) returns (r: seq<Conv>)
    requires |args| == 1 && args[0] == W("set_time")
    ensures Ready(COMMANDS, args, 7, SetTime, r)
  {
    BeforeSetTime(args);
    r := BareReady(COMMANDS, args, 7);
  }

  lemma RadioStopReady(args: seq<Arg>) returns (r: seq<Conv>)
    requires |args| == 1 && args[0] == W("config_radio_stop")
    ensures Ready(COMMANDS, args, 6, NoArgs, r)
  {
    BeforeRadioStop(args);
    r := BareReady(COMMANDS, args, 6);
  }

  lemma PowerReady(args: seq<Arg>, on: bool)
    requires |args| == 2 && args[0] == W(if on then "start" else "stop")
    requires args[1].W? && IsWord(args[1].word)
    ensures Ready(COMMANDS, args, if on then 0 else 1, Alim, [L, S(Cut(args[1].word, 8))])
  {
    CommandFormats();
    assert IsWord("start") && IsWord("stop");
    if on {
      WordReady(COMMANDS, args, 0, 8);
    } else {
      BeforeStop(args);
      WordReady(COMMANDS, args, 1, 8);
    }
  }

  lemma NodeReady(args: seq<Arg>)
    requires |args| == 3 && args[0] == W("set_node_id") && args[2].N?
    requires args[1].W? && IsWord(args[1].word) && |args[1].word| <= 8
    ensures Ready(COMMANDS, args, 8, SetNodeId, [L, S(args[1].word), I(ToInt32(args[2].num))])
  {
    BeforeSetNodeId(args);
    assert IsWord("set_node_id");
    WordIntReady(COMMANDS, args, 8, 8);
  }

  lemma RadioMeasureReady(args: seq<Arg>)
    requires |args| == 4 && args[0] == W("config_radio_measure") && args[2].N? && args[3].N?
    requires args[1].W? && IsWord(args[1].word) && |args[1].word| <= 256
    ensures Ready(COMMANDS, args, 4, RadioMeasure,
                  [L, S(args[1].word), I(ToInt32(args[2].num)), I(ToInt32(args[3].num))])
  {
    BeforeRadioMeasure(args);
    assert IsWord("config_radio_measure");
    WordIntIntReady(COMMANDS, args, 4, 256);
  }

  lemma RadioSnifferReady(args: seq<Arg>)
    requires |args| == 3 && args[0] == W("config_radio_sniffer") && args[2].N?
    requires args[1].W? && IsWord(args[1].word) && |args[1].word| <= 256
    ensures Ready(COMMANDS, args, 5, RadioSniffer, [L, S(args[1].word), I(ToInt32(args[2].num))])
  {
    BeforeRadioSniffer(args);
    assert IsWord("config_radio_sniffer");
    WordIntReady(COMMANDS, args, 5, 256);
  }

  lemma PingPongReady(args: seq<Arg>)
    requires |args| == 4 && args[0] == W("test_radio_ping_pong") && args[1] == W("start") && args[2].N?
    requires args[3].W? && IsWord(args[3].word) && |args[3].word| <= 8
    ensures Ready(COMMANDS, args, 15, RadioPingPong,
                  [L, S(args[1].word), I(ToInt32(args[2].num)), S(args[3].word)])
  {
    BeforePingPong(args);
    assert IsWord("test_radio_ping_pong") && IsWord("start");
    WordIntWordReady(COMMANDS, args, 15, 8);
  }

  // ----- Consumption: two entries for one command name ------------------------------------------

  lemma LongEntry()
    ensures |COMMANDS| == 17 && COMMANDS[2] == Description(CONSUMPTION_FMT, 7, Consumption)
    ensures |CONSUMPTION_FMT| == 13 && CONSUMPTION_FMT[12] == Str(8)
  {
  }

  lemma LongCount()
    ensures FieldCount(CONSUMPTION_FMT) == 7
  {
  }

  lemma ConsumptionIsWord()
    ensures IsWord("config_consumption_measure")
  {
  }

  /** A command with one argument ends in the middle of the long format, so the short one is used. */
  lemma BeforeShort(args: seq<Arg>)
    requires |args| == 2 && args[0] == W("config_consumption_measure")
    requires args[1].W? && IsWord(args[1].word) && |args[1].word| <= 8
    ensures |COMMANDS| == 17 && Formats(COMMANDS)
    ensures forall j :: 0 <= j < 3 ==> !Matches(Line(args), COMMANDS[j])
  {
    BeforeConsumption(args);
    LongEntry();
    ConsumptionIsWord();
    assert CONSUMPTION_FMT[0] == Lit(args[0].word) && CONSUMPTION_FMT[1] == CONSUMPTION_FMT[2] == Str(8);
    TooShort(COMMANDS, args, 2, CONSUMPTION_FMT);
  }

  lemma ShortReady(args: seq<Arg>)
    requires |args| == 2 && args[0] == W("config_consumption_measure")
    requires args[1].W? && IsWord(args[1].word) && |args[1].word| <= 8
    ensures Ready(COMMANDS, args, 3, Consumption, [L, S(Cut(args[1].word, 8))])
  {
    BeforeShort(args);
    ConsumptionIsWord();
    assert COMMANDS[3].fmt == [Lit(args[0].word), Str(8)] && COMMANDS[3].count == 1
           && COMMANDS[3].handler == Consumption;
    WordReady(COMMANDS, args, 3, 8);
  }

  predicate LongShape(args: seq<Arg>)
  {
    && |args| == 13 && args[0] == W("config_consumption_measure") && args[1] == W("start")
    && args[3] == W("p") && args[5] == W("v") && args[7] == W("c") && args[9] == W("-p") && args[11] == W("-a")
    && args[2].W? && args[4].N? && args[6].N? && args[8].N?
    && IsWord(Show(args[2])) && |Show(args[2])| <= 8
    && IsWord(Show(args[10])) && |Show(args[10])| <= 8
    && IsWord(Show(args[12])) && |Show(args[12])| <= 8
  }

  function LongConvs(args: seq<Arg>): (r: seq<Conv>)
    requires LongShape(args)
  {
    [L, S(args[1].word), S(args[2].word), L, I(ToInt32(args[4].num)), L, I(ToInt32(args[6].num)), L,
     I(ToInt32(args[8].num)), L, S(Show(args[10])), L, S(Show(args[12]))]
  }

  lemma LongFits(args: seq<Arg>)
    requires LongShape(args)
    ensures |CONSUMPTION_FMT| == 13
    ensures forall i :: 0 <= i < 13 ==> Fits(CONSUMPTION_FMT[i], args[i])
  {
    ConsumptionIsWord();
    assert IsWord("start") && IsWord("p") && IsWord("v") && IsWord("c") && IsWord("-p") && IsWord("-a");
  }

  lemma LongConverts(args: seq<Arg>)
    requires LongShape(args)
    ensures AllFit(CONSUMPTION_FMT, args, LongConvs(args))
  {
    LongFits(args);
  }

  lemma LongReady(args: seq<Arg>)
    requires LongShape(args)
    ensures Ready(COMMANDS, args, 2, Consumption, LongConvs(args))
  {
    BeforeConsumption(args);
    LongConverts(args);
    LongEntry();
    LongCount();
    FitsReady(COMMANDS, args, 2, LongConvs(args), CONSUMPTION_FMT);
  }
}
