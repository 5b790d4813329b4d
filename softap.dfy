/**
 * SoftapController.cpp: the generic controller. `startSoftap` forks and execs
 * hostapd and remembers the child's pid, `stopSoftap` kills and reaps it,
 * `setSoftap` renders hostapd.conf from the command arguments and
 * `fwReloadSoftap` asks the Wi-Fi HAL to switch firmware.
 *
 * `argv` is the command's argument vector (`argc == |argv|`): argv[2] the
 * interface, argv[3] the SSID, argv[4] hidden/broadcast, argv[5] the channel,
 * argv[6] the security token and argv[7] the passphrase.
 */
module Softap {
  import opened Wrappers
  import opened CStrings
  import opened HostapdConf
  import opened Psk
  import opened ConfigFile
  import opened ResponseCodes
  import opened Lifecycle

  /** AP_CHANNEL_DEFAULT, from SoftapController.h. */
  const ApChannelDefault: nat := 6

  /** HOSTAPD_DRIVER_NAME when the build does not override it. */
  const DriverName := "nl80211"

  /** The channel setSoftap uses for a channel argument: its `atoi` when positive, the default otherwise. */
  function Channel(arg: string): (c: nat)
    ensures c > 0
    ensures Atoi(arg) > 0 ==> c == Atoi(arg)
    ensures Atoi(arg) <= 0 ==> c == ApChannelDefault
    ensures FitsInt(Atoi(arg)) ==> c <= IntMax
  {
    var n := Atoi(arg);
    if n <= 0 then ApChannelDefault else n
  }

  /** `hidden`: 1 exactly when the visibility argument is "hidden" in any letter case. */
  function Hidden(arg: string): (h: nat)
    ensures h <= 1
    ensures h == 1 <==> EqualIgnoringCase(arg, "hidden")
  {
    if EqualIgnoringCase(arg, "hidden") then 1 else 0
  }

  /**
   * The base block, one entry per line of the first `asprintf`; BaseFields
   * states what each line carries.
   */
  function BaseEntries(iface: string, ssid: string, channel: nat, hidden: nat): (es: seq<Entry>)
    ensures |es| == 8
  {
    [ Entry("interface", iface),
      Entry("driver", DriverName),
      Entry("ctrl_interface", CtrlInterfaceDir),
      Entry("ssid", ssid),
      Entry("channel", Decimal(channel)),
      Entry("ieee80211n", "1"),
      Entry("hw_mode", "g"),
      Entry("ignore_broadcast_ssid", Decimal(hidden)) ]
  }

  function WpaEntries(psk: string): seq<Entry> {
    [Entry("wpa", "1"), Entry("wpa_pairwise", "TKIP CCMP"), Entry("wpa_psk", psk)]
  }

  function Wpa2Entries(psk: string): seq<Entry> {
    [Entry("wpa", "2"), Entry("rsn_pairwise", "CCMP"), Entry("wpa_psk", psk)]
  }

  /**
   * The security block chosen by the argument count and the exact security
   * token; None where the C code leaves `fbuf` NULL.
   */
  function SecurityEntries(argv: seq<CString>, kdf: Kdf): (sec: Option<seq<Entry>>)
    requires |argv| >= 6
    ensures sec.None? <==>
      (|argv| == 7 && argv[6] != "open") ||
      (|argv| > 7 && argv[6] != "wpa-psk" && argv[6] != "wpa2-psk" && argv[6] != "open")
    ensures sec == Some([]) <==> |argv| == 6 || argv[6] == "open"
    ensures sec.Some? && sec.value != [] ==>
      |argv| > 7 && |sec.value| == 3 && sec.value[2] == Entry("wpa_psk", PskString(kdf, argv[3], argv[7]))
  {
    if |argv| > 7 then
      if argv[6] == "wpa-psk" then Some(WpaEntries(PskString(kdf, argv[3], argv[7])))
      else if argv[6] == "wpa2-psk" then Some(Wpa2Entries(PskString(kdf, argv[3], argv[7])))
      else if argv[6] == "open" then Some([])
      else None
    else if |argv| > 6 then
      if argv[6] == "open" then Some([]) else None
    else Some([])
  }

  function Base(argv: seq<CString>): seq<Entry>
    requires |argv| >= 6
  {
    BaseEntries(argv[2], argv[3], Channel(argv[5]), Hidden(argv[4]))
  }

  /** `fbuf`: the base block followed by the security block, or None when it stays NULL. */
  function ConfigText(argv: seq<CString>, kdf: Kdf): (r: Option<string>)
    requires |argv| >= 6
    ensures r.None? <==> SecurityEntries(argv, kdf).None?
    ensures r.Some? ==> Render(Base(argv)) <= r.value
  {
    match SecurityEntries(argv, kdf)
    case None => None
    case Some(sec) =>
      RenderAppend(Base(argv), sec);
      Some(Render(Base(argv) + sec))
  }

  /**
   * `setSoftap`. Fewer than five arguments is a syntax error with no file
   * touched; exactly five makes the C code read argv[5] past the end, and a
   * channel argument whose `atoi` value does not fit in an `int` is
   * undefined as well.
   */
  function SetSoftap(argv: seq<CString>, kdf: Kdf, io: FileIo): (r: SetOutcome)
    ensures |argv| < 5 ==> r == Finished(CommandSyntaxError, Untouched)
    ensures |argv| == 5 ==> r == UndefinedBehaviour(ChannelPastEnd)
    ensures |argv| >= 6 && !FitsInt(Atoi(argv[5])) ==> r == UndefinedBehaviour(ChannelOverflow)
    ensures |argv| >= 6 && FitsInt(Atoi(argv[5])) ==> r == WriteConfig(ConfigText(argv, kdf), io)
  {
    if |argv| < 5 then Finished(CommandSyntaxError, Untouched)
    else if |argv| == 5 then UndefinedBehaviour(ChannelPastEnd)
    else if !FitsInt(Atoi(argv[5])) then UndefinedBehaviour(ChannelOverflow)
    else WriteConfig(ConfigText(argv, kdf), io)
  }

  /** The written text is the base block followed by the security block. */
  lemma SecuritySuffix(argv: seq<CString>, kdf: Kdf)
    requires |argv| >= 6
    ensures ConfigText(argv, kdf).Some? ==>
      ConfigText(argv, kdf).value == Render(Base(argv)) + Render(SecurityEntries(argv, kdf).value)
    ensures ConfigText(argv, kdf).Some? ==> Render(Base(argv)) <= ConfigText(argv, kdf).value
  {
    if SecurityEntries(argv, kdf).Some? {
      RenderAppend(Base(argv), SecurityEntries(argv, kdf).value);
    }
  }

  /** "open", or no security token at all, writes exactly the base block. */
  lemma OpenIsBaseOnly(argv: seq<CString>, kdf: Kdf)
    requires |argv| == 6 || (|argv| > 6 && argv[6] == "open")
    ensures ConfigText(argv, kdf) == Some(Render(Base(argv)))
  {
    assert Base(argv) + [] == Base(argv);
  }

  /** "wpa2-psk" with a passphrase appends the WPA2/CCMP block carrying the derived key. */
  lemma Wpa2Block(argv: seq<CString>, kdf: Kdf)
    requires |argv| > 7 && argv[6] == "wpa2-psk"
    ensures ConfigText(argv, kdf) ==
      Some(Render(Base(argv)) + Render(Wpa2Entries(PskString(kdf, argv[3], argv[7]))))
  {
    RenderAppend(Base(argv), Wpa2Entries(PskString(kdf, argv[3], argv[7])));
  }

  /** "wpa-psk" with a passphrase appends the WPA/TKIP+CCMP block carrying the derived key. */
  lemma WpaBlock(argv: seq<CString>, kdf: Kdf)
    requires |argv| > 7 && argv[6] == "wpa-psk"
    ensures ConfigText(argv, kdf) ==
      Some(Render(Base(argv)) + Render(WpaEntries(PskString(kdf, argv[3], argv[7]))))
  {
    RenderAppend(Base(argv), WpaEntries(PskString(kdf, argv[3], argv[7])));
  }

  /** `fbuf` stays NULL exactly when a security token is given that the argument count does not accept. */
  lemma NullConfigIff(argv: seq<CString>, kdf: Kdf)
    requires |argv| >= 6
    ensures ConfigText(argv, kdf).None? <==>
      (|argv| == 7 && argv[6] != "open") ||
      (|argv| > 7 && argv[6] != "wpa-psk" && argv[6] != "wpa2-psk" && argv[6] != "open")
  {
  }

  /**
   * A reader of the written file finds the base block's entries followed by
   * the security block's, provided the interface and SSID hold no newline.
   */
  lemma ReaderSeesConfig(argv: seq<CString>, kdf: Kdf)
    requires |argv| >= 6 && ConfigText(argv, kdf).Some?
    requires '\n' !in argv[2] && '\n' !in argv[3]
    ensures Parse(ConfigText(argv, kdf).value) == Base(argv) + SecurityEntries(argv, kdf).value
  {
    var base, sec := Base(argv), SecurityEntries(argv, kdf).value;
    BasePlain(argv);
    SecurityPlain(argv, kdf);
    AllPlainAppend(base, sec);
    ParseRender(base + sec);
  }

  /**
   * The base block names the interface and SSID as given, a channel that
   * `atoi` reads back as the chosen one, and `ignore_broadcast_ssid=1`
   * exactly for a "hidden" argument in any letter case.
   */
  lemma BaseFields(argv: seq<CString>)
    requires |argv| >= 6
    ensures Base(argv)[0] == Entry("interface", argv[2])
    ensures Base(argv)[3] == Entry("ssid", argv[3])
    ensures Base(argv)[4].key == "channel" && Atoi(Base(argv)[4].value) == Channel(argv[5])
    ensures Base(argv)[7] == Entry("ignore_broadcast_ssid", if EqualIgnoringCase(argv[4], "hidden") then "1" else "0")
  {
    BaseChannelField(argv);
    BaseHiddenField(argv);
  }

  lemma BaseChannelField(argv: seq<CString>)
    requires |argv| >= 6
    ensures Base(argv)[4].key == "channel" && Atoi(Base(argv)[4].value) == Channel(argv[5])
  {
    assert Base(argv)[4] == Entry("channel", Decimal(Channel(argv[5])));
    AtoiDecimal(Channel(argv[5]));
  }

  lemma BaseHiddenField(argv: seq<CString>)
    requires |argv| >= 6
    ensures Base(argv)[7] == Entry("ignore_broadcast_ssid", if EqualIgnoringCase(argv[4], "hidden") then "1" else "0")
  {
    assert Base(argv)[7] == Entry("ignore_broadcast_ssid", Decimal(Hidden(argv[4])));
    HiddenDigits();
  }

  lemma HiddenDigits()
    ensures Decimal(1) == "1" && Decimal(0) == "0"
  {
  }

  lemma BasePlain(argv: seq<CString>)
    requires |argv| >= 6 && '\n' !in argv[2] && '\n' !in argv[3]
    ensures AllPlain(Base(argv))
  {
    BaseEntriesPlain(argv[2], argv[3], Channel(argv[5]), Hidden(argv[4]));
  }

  lemma BaseEntriesPlain(iface: string, ssid: string, channel: nat, hidden: nat)
    requires '\n' !in iface && '\n' !in ssid
    ensures AllPlain(BaseEntries(iface, ssid, channel, hidden))
  {
    var es := BaseEntries(iface, ssid, channel, hidden);
    DecimalPlain(channel);
    DecimalPlain(hidden);
    FixedEntriesPlain();
    VariableKeysPlain();
    assert es[0] == Entry("interface", iface) && es[3] == Entry("ssid", ssid);
    assert es[4] == Entry("channel", Decimal(channel));
    assert es[7] == Entry("ignore_broadcast_ssid", Decimal(hidden));
  }

  /** The keys of the lines whose values come from the arguments. */
  lemma VariableKeysPlain()
    ensures Plain(Entry("interface", "")) && Plain(Entry("ssid", ""))
    ensures Plain(Entry("channel", "")) && Plain(Entry("ignore_broadcast_ssid", ""))
  {
    HiddenKeyPlain();
  }

  lemma HiddenKeyPlain()
    ensures Plain(Entry("ignore_broadcast_ssid", ""))
  {
  }

  lemma FixedEntriesPlain()
    ensures Plain(Entry("driver", DriverName))
    ensures Plain(Entry("ctrl_interface", CtrlInterfaceDir))
    ensures Plain(Entry("ieee80211n", "1"))
    ensures Plain(Entry("hw_mode", "g"))
  {
    DriverPlain();
    CtrlInterfacePlain();
  }

  lemma DriverPlain()
    ensures Plain(Entry("driver", DriverName))
  {
  }

  lemma SecurityPlain(argv: seq<CString>, kdf: Kdf)
    requires |argv| >= 6 && SecurityEntries(argv, kdf).Some?
    ensures AllPlain(SecurityEntries(argv, kdf).value)
  {
    if |argv| > 7 {
      var psk := PskString(kdf, argv[3], argv[7]);
      HexPlain(psk);
      WpaPlain(psk);
    }
  }

  lemma WpaPlain(psk: string)
    requires '\n' !in psk
    ensures AllPlain(WpaEntries(psk)) && AllPlain(Wpa2Entries(psk))
  {
    WpaKeysPlain();
    assert Plain(Entry("wpa_psk", psk));
  }

  lemma WpaKeysPlain()
    ensures Plain(Entry("wpa", "1")) && Plain(Entry("wpa", "2"))
    ensures Plain(Entry("wpa_pairwise", "TKIP CCMP")) && Plain(Entry("rsn_pairwise", "CCMP"))
  {
  }

  lemma DecimalPlain(n: nat)
    ensures '\n' !in Decimal(n)
  {
  }

  lemma HexPlain(s: string)
    requires forall i :: 0 <= i < |s| ==> IsLowerHex(s[i])
    ensures '\n' !in s
  {
  }

  /** "11" selects channel 11; "0" and "abc" fall back to the default channel. */
  lemma ChannelExamples()
    ensures Channel("11") == 11
    ensures Channel("0") == ApChannelDefault
    ensures Channel("abc") == ApChannelDefault
  {
    AtoiEleven();
    AtoiZero();
    AtoiLetters();
  }

  lemma AtoiEleven()
    ensures Atoi("11") == 11
  {
    assert Decimal(11) == "11" by {
      assert Decimal(1) == "1";
    }
    AtoiDecimal(11);
  }

  lemma AtoiZero()
    ensures Atoi("0") == 0
  {
    assert Decimal(0) == "0";
    AtoiDecimal(0);
  }

  lemma AtoiLetters()
    ensures Atoi("abc") == 0
  {
    assert SkipSpace("abc") == "abc";
    assert DigitPrefix("abc") == [];
  }

  datatype FwMode = Ap | P2p | Sta

  /** The firmware mode named by argv[3], compared exactly. */
  function FwModeOf(arg: string): (m: Option<FwMode>)
    ensures m == Some(Ap) <==> arg == "AP"
    ensures m == Some(P2p) <==> arg == "P2P"
    ensures m == Some(Sta) <==> arg == "STA"
  {
    if arg == "AP" then Some(Ap) else if arg == "P2P" then Some(P2p) else if arg == "STA" then Some(Sta) else None
  }

  /** The code `fwReloadSoftap` returns and the firmware path it asked the HAL to switch to, if any. */
  datatype FwReload = FwReload(code: ResponseCode, changedTo: Option<string>)

  /**
   * `fwReloadSoftap`. `fwPath` is the HAL's `wifi_get_fw_path` (None for a
   * NULL path), `changeOk` whether `wifi_change_fw_path` returned 0.
   */
  function FwReloadSoftap(argv: seq<CString>, fwPath: FwMode -> Option<CString>, changeOk: bool): (r: FwReload)
    ensures |argv| < 4 ==> r == FwReload(CommandSyntaxError, None)
    ensures |argv| >= 4 && FwModeOf(argv[3]).None? ==> r == FwReload(CommandParameterError, None)
    ensures |argv| >= 4 && FwModeOf(argv[3]).Some? ==>
      var path := fwPath(FwModeOf(argv[3]).value);
      if path.None? then r == FwReload(CommandParameterError, None)
      else r == FwReload(if changeOk then SoftapStatusResult else OperationFailed, Some(path.value))
    ensures r.code == SoftapStatusResult ==> r.changedTo.Some? && changeOk
  {
    if |argv| < 4 then FwReload(CommandSyntaxError, None)
    else
      var path := match FwModeOf(argv[3]) case None => None case Some(m) => fwPath(m);
      if path.None? then FwReload(CommandParameterError, None)
      else if changeOk then FwReload(SoftapStatusResult, Some(path.value))
      else FwReload(OperationFailed, Some(path.value))
  }

  /** What the controller did to processes: a fork and its result, or a SIGTERM plus waitpid on a pid. */
  datatype ProcessEvent = Forked(result: int) | Killed(pid: int)

  class SoftapController {
    /** The hostapd child's pid, 0 while no AP runs. */
    var mPid: int
    ghost var history: seq<Completed>
    ghost var processes: seq<ProcessEvent>

    ghost predicate Valid()
      reads this
    {
      (mPid != 0) == StartedAfter(history)
    }

    constructor ()
      ensures Valid() && mPid == 0 && history == [] && processes == []
    {
      mPid := 0;
      history := [];
      processes := [];
    }

    /** `isSoftapStarted`: the AP counts as started exactly when the history says a start is in force. */
    function IsSoftapStarted(): (started: bool)
      reads this
      requires Valid()
      ensures started <==> StartedSinceLastStop(history)
    {
      StartedAfterIff(history);
      mPid != 0
    }

    /**
     * `startSoftap`. `fork` is what fork() returns in this process: negative
     * on failure, 0 in the child (whose execl did not replace it), the
     * child's pid in the parent.
     */
    method StartSoftap(fork: int) returns (code: ResponseCode)
      requires Valid()
      modifies this
      ensures Valid()
      ensures old(mPid) != 0 ==>
        code == SoftapStatusResult && mPid == old(mPid) && processes == old(processes)
      ensures old(mPid) == 0 ==> processes == old(processes) + [Forked(fork)]
      ensures old(mPid) == 0 ==>
        (code == SoftapStatusResult <==> fork > 0) && mPid == (if fork > 0 then fork else 0)
      ensures history == old(history) + [if code == SoftapStatusResult then StartSucceeded else StartFailed]
    {
      if mPid != 0 {
        code := SoftapStatusResult;
      } else {
        processes := processes + [Forked(fork)];
        if fork < 0 {
          code := ServiceStartFailed;
        } else if fork == 0 {
          code := ServiceStartFailed;
        } else {
          mPid := fork;
          code := SoftapStatusResult;
        }
      }
      history := history + [if code == SoftapStatusResult then StartSucceeded else StartFailed];
    }

    /** `stopSoftap`: kill and reap the child if there is one; afterwards no AP runs. */
    method StopSoftap() returns (code: ResponseCode)
      requires Valid()
      modifies this
      ensures Valid()
      ensures code == SoftapStatusResult && mPid == 0
      ensures processes == if old(mPid) == 0 then old(processes) else old(processes) + [Killed(old(mPid))]
      ensures history == old(history) + [Stopped]
    {
      if mPid != 0 {
        processes := processes + [Killed(mPid)];
        mPid := 0;
      }
      code := SoftapStatusResult;
      history := history + [Stopped];
    }
  }
}
