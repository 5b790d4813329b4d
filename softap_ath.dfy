/**
 * SoftapControllerATH.cpp: the Atheros controller. Instead of forking
 * hostapd itself it renames the ar6000 interface into AP mode through sysfs,
 * has init start hostapd, waits for it and opens its control connection;
 * stopping undoes this. Its `setSoftap` renders a different hostapd.conf.
 *
 * The file-static state of the C code (`rfkill_id`, `ctrl_conn`,
 * `mProfileValid`) is held in the controller beside `mPid`, together with the
 * sysfs files and the wake lock it acts on.
 */
module SoftapAth {
  import opened Wrappers
  import opened CStrings
  import opened HostapdConf
  import opened ConfigFile
  import opened ResponseCodes
  import opened Lifecycle
  import opened Radio
  import opened Hostapd
  import Softap

  /** WIFI_DEFAULT_MAX_STA, WIFI_DEFAULT_BI (in TU) and WIFI_DEFAULT_DTIM (in beacons). */
  const MaxStations: nat := 8
  const BeaconInterval: nat := 100
  const DtimPeriod: nat := 1

  /**
   * The base block, one entry per line of the first `asprintf`; the
   * interface is always "athap0" (AthInterfaceFirst) and the channel reads
   * back through `atoi` (AthChannelReadsBack).
   */
  function AthBaseEntries(ssid: string, channel: nat): (es: seq<Entry>)
    ensures |es| == 8
  {
    [ Entry("interface", ApIfname),
      Entry("ctrl_interface", CtrlInterfaceDir),
      Entry("ssid", ssid),
      Entry("channel_num", Decimal(channel)),
      Entry("auth_algs", "1"),
      Entry("max_num_sta", Decimal(MaxStations)),
      Entry("beacon_int", Decimal(BeaconInterval)),
      Entry("dtim_period", Decimal(DtimPeriod)) ]
  }

  /** The WPA2 block, carrying the passphrase itself. */
  function AthWpa2Entries(passphrase: string): seq<Entry> {
    [ Entry("wpa", "2"),
      Entry("wpa_key_mgmt", "WPA-PSK"),
      Entry("wpa_pairwise", "CCMP"),
      Entry("wpa_passphrase", passphrase) ]
  }

  function AthBase(argv: seq<CString>): seq<Entry>
    requires |argv| >= 6
  {
    AthBaseEntries(argv[3], Softap.Channel(argv[5]))
  }

  /** The security block: only "wpa2-psk" (with a passphrase) and "open" are known; None leaves `fbuf` NULL. */
  function AthSecurityEntries(argv: seq<CString>): (sec: Option<seq<Entry>>)
    requires |argv| >= 6
    ensures sec.None? <==>
      (|argv| == 7 && argv[6] != "open") ||
      (|argv| > 7 && argv[6] != "wpa2-psk" && argv[6] != "open")
    ensures sec == Some([]) <==> |argv| == 6 || argv[6] == "open"
    ensures sec.Some? && sec.value != [] ==>
      |argv| > 7 && |sec.value| == 4 && sec.value[3] == Entry("wpa_passphrase", argv[7])
  {
    if |argv| > 7 then
      if argv[6] == "wpa2-psk" then Some(AthWpa2Entries(argv[7]))
      else if argv[6] == "open" then Some([])
      else None
    else if |argv| > 6 then
      if argv[6] == "open" then Some([]) else None
    else Some([])
  }

  /** `fbuf`, or None when it stays NULL. */
  function AthConfigText(argv: seq<CString>): (r: Option<string>)
    requires |argv| >= 6
    ensures r.None? <==> AthSecurityEntries(argv).None?
    ensures r.Some? ==> Render(AthBase(argv)) <= r.value
  {
    match AthSecurityEntries(argv)
    case None => None
    case Some(sec) =>
      RenderAppend(AthBase(argv), sec);
      Some(Render(AthBase(argv) + sec))
  }

  /** The text always starts with the `interface=athap0` line, whatever interface the command names. */
  lemma AthInterfaceFirst(argv: seq<CString>)
    requires |argv| >= 6 && AthConfigText(argv).Some?
    ensures Line(Entry("interface", ApIfname)) + "\n" <= AthConfigText(argv).value
  {
    var es := AthBase(argv) + AthSecurityEntries(argv).value;
    assert es[0] == Entry("interface", ApIfname);
  }

  /** Neither the interface argument nor the hidden/broadcast argument changes the text. */
  lemma AthIgnoresIfaceAndHidden(argv: seq<CString>, iface: CString, visibility: CString)
    requires |argv| >= 6
    ensures AthConfigText(argv[2 := iface][4 := visibility]) == AthConfigText(argv)
  {
    var argv' := argv[2 := iface][4 := visibility];
    assert argv'[3] == argv[3] && argv'[5] == argv[5];
    assert |argv'| > 6 ==> argv'[6] == argv[6];
    assert |argv'| > 7 ==> argv'[7] == argv[7];
    assert AthBase(argv') == AthBase(argv);
    assert AthSecurityEntries(argv') == AthSecurityEntries(argv);
  }

  /** "wpa2-psk" with a passphrase appends the WPA2 block, which carries the passphrase verbatim. */
  lemma AthWpa2Block(argv: seq<CString>)
    requires |argv| > 7 && argv[6] == "wpa2-psk"
    ensures AthConfigText(argv) == Some(Render(AthBase(argv)) + Render(AthWpa2Entries(argv[7])))
  {
    RenderAppend(AthBase(argv), AthWpa2Entries(argv[7]));
  }

  /** "open", or no security token at all, writes exactly the base block. */
  lemma AthOpenIsBaseOnly(argv: seq<CString>)
    requires |argv| == 6 || (|argv| > 6 && argv[6] == "open")
    ensures AthConfigText(argv) == Some(Render(AthBase(argv)))
  {
    assert AthBase(argv) + [] == AthBase(argv);
  }

  /** `fbuf` stays NULL exactly when a security token is given that is neither "open" nor, with a passphrase, "wpa2-psk". */
  lemma AthNullConfigIff(argv: seq<CString>)
    requires |argv| >= 6
    ensures AthConfigText(argv).None? <==>
      (|argv| == 7 && argv[6] != "open") ||
      (|argv| > 7 && argv[6] != "wpa2-psk" && argv[6] != "open")
  {
  }

  /**
   * A reader of the written file finds the base block's entries, then the
   * security block's, provided the SSID and passphrase hold no newline; in
   * particular the passphrase comes back verbatim.
   */
  lemma AthReaderSeesConfig(argv: seq<CString>)
    requires |argv| >= 6 && AthConfigText(argv).Some?
    requires '\n' !in argv[3] && (|argv| > 7 ==> '\n' !in argv[7])
    ensures Parse(AthConfigText(argv).value) == AthBase(argv) + AthSecurityEntries(argv).value
    ensures |argv| > 7 && argv[6] == "wpa2-psk" ==>
      Parse(AthConfigText(argv).value)[11] == Entry("wpa_passphrase", argv[7])
  {
    var base, sec := AthBase(argv), AthSecurityEntries(argv).value;
    AthBaseEntriesPlain(argv[3], Softap.Channel(argv[5]));
    AthSecurityPlain(argv);
    AllPlainAppend(base, sec);
    ParseRender(base + sec);
  }

  /** The channel line reads back, through `atoi`, as the channel setSoftap chose. */
  lemma AthChannelReadsBack(argv: seq<CString>)
    requires |argv| >= 6
    ensures AthBase(argv)[3].key == "channel_num" && Atoi(AthBase(argv)[3].value) == Softap.Channel(argv[5])
  {
    var c := Softap.Channel(argv[5]);
    assert AthBase(argv)[3] == Entry("channel_num", Decimal(c));
    AtoiDecimal(c);
  }

  lemma AthBaseEntriesPlain(ssid: string, channel: nat)
    requires '\n' !in ssid
    ensures AllPlain(AthBaseEntries(ssid, channel))
  {
    AthFixedEntriesPlain();
    AthNumberEntriesPlain(channel);
    assert Plain(Entry("ssid", ssid));
  }

  lemma AthFixedEntriesPlain()
    ensures Plain(Entry("interface", ApIfname))
    ensures Plain(Entry("ctrl_interface", CtrlInterfaceDir))
    ensures Plain(Entry("auth_algs", "1"))
  {
    CtrlInterfacePlain();
  }

  lemma AthNumberEntriesPlain(channel: nat)
    ensures Plain(Entry("channel_num", Decimal(channel)))
    ensures Plain(Entry("max_num_sta", Decimal(MaxStations)))
    ensures Plain(Entry("beacon_int", Decimal(BeaconInterval)))
    ensures Plain(Entry("dtim_period", Decimal(DtimPeriod)))
  {
    AthNumberKeysPlain();
    Softap.DecimalPlain(channel);
    Softap.DecimalPlain(MaxStations);
    Softap.DecimalPlain(BeaconInterval);
    Softap.DecimalPlain(DtimPeriod);
  }

  lemma AthNumberKeysPlain()
    ensures '=' !in "channel_num" && '\n' !in "channel_num" && '=' !in "max_num_sta" && '\n' !in "max_num_sta"
    ensures '=' !in "beacon_int" && '\n' !in "beacon_int" && '=' !in "dtim_period" && '\n' !in "dtim_period"
  {
  }

  lemma AthSecurityPlain(argv: seq<CString>)
    requires |argv| >= 6 && AthSecurityEntries(argv).Some?
    requires |argv| > 7 ==> '\n' !in argv[7]
    ensures AllPlain(AthSecurityEntries(argv).value)
  {
    if |argv| > 7 {
      AthWpa2Plain(argv[7]);
    }
  }

  lemma AthWpa2Plain(passphrase: string)
    requires '\n' !in passphrase
    ensures AllPlain(AthWpa2Entries(passphrase))
  {
    AthWpa2KeysPlain();
    assert Plain(Entry("wpa_passphrase", passphrase));
  }

  lemma AthWpa2KeysPlain()
    ensures Plain(Entry("wpa", "2"))
    ensures Plain(Entry("wpa_key_mgmt", "WPA-PSK"))
    ensures Plain(Entry("wpa_pairwise", "CCMP"))
    ensures '=' !in "wpa_passphrase" && '\n' !in "wpa_passphrase"
  {
  }

  /** `wifi_load_profile`: -1 only for a started AP with a valid profile and no control connection. */
  function WifiLoadProfile(started: bool, profileValid: int, conn: Option<Handle>): (r: int)
    ensures r == -1 <==> started && profileValid != 0 && conn.None?
    ensures r == 0 <==> !(started && profileValid != 0 && conn.None?)
  {
    if started && profileValid != 0 && conn.None? then -1 else 0
  }

  /** With `mProfileValid` never set to anything but 0, loading the profile cannot fail. */
  lemma LoadProfileNeverFails(started: bool, conn: Option<Handle>)
    ensures WifiLoadProfile(started, 0, conn) == 0
  {
  }

  /**
   * The outcome of the ATH `setSoftap` once the write sequence is done: when
   * the file was closed normally, the result of loading the profile replaces
   * the return value, a failed write's OperationFailed included.
   */
  function AfterLoad(w: SetOutcome, loaded: int): (r: SetOutcome)
    ensures w.UndefinedBehaviour? ==> r == w
    ensures w.Finished? ==> r.Finished? && r.file == w.file
    ensures w.Finished? && w.file.Written? ==> (r.code == SoftapStatusResult <==> loaded == 0)
    ensures w.Finished? && !w.file.Written? ==> r == w
  {
    match w
    case UndefinedBehaviour(_) => w
    case Finished(code, file) =>
      if !file.Written? then w
      else if loaded != 0 then Finished(OperationFailed, file)
      else Finished(SoftapStatusResult, file)
  }

  /**
   * The same tail as the source evidently intends it: a failed write is
   * reported as OperationFailed even when the profile loads.
   */
  function AfterLoadChecked(w: SetOutcome, loaded: int): (r: SetOutcome)
    ensures w.UndefinedBehaviour? ==> r == w
    ensures w.Finished? ==> r.Finished? && r.file == w.file
    ensures r.Finished? && r.code == SoftapStatusResult ==> w.Finished? && w.code == SoftapStatusResult
    ensures w.Finished? && w.file.Written? ==> (r.code == SoftapStatusResult <==> w.code == SoftapStatusResult && loaded == 0)
  {
    match w
    case UndefinedBehaviour(_) => w
    case Finished(code, file) =>
      if !file.Written? || code != SoftapStatusResult then w
      else if loaded != 0 then Finished(OperationFailed, file)
      else Finished(SoftapStatusResult, file)
  }

  /** `fwReloadSoftap`: only the argument count is checked; nothing is reloaded. */
  function FwReloadSoftap(argv: seq<CString>): (code: ResponseCode)
    ensures code == CommandSyntaxError <==> |argv| < 4
    ensures code == SoftapStatusResult <==> |argv| >= 4
  {
    if |argv| < 4 then CommandSyntaxError else SoftapStatusResult
  }

  /** What the controller did on the hostapd control connection. */
  datatype CtrlEvent = Opened(h: Handle) | AttachFailed(h: Handle) | Closed(h: Handle)

  /** What the controller asked init to do with the hostapd service. */
  datatype DaemonRequest = CtlStart | CtlStop

  /**
   * The connection events of a connect that reached the open attempts: none
   * when every attempt failed; the open, and on a failed attach its close.
   */
  function ConnectLog(first: Option<Handle>, attachOk: bool): (log: seq<CtrlEvent>)
    ensures first.None? ==> log == []
    ensures first.Some? ==> |log| > 0 && log[0] == Opened(first.value)
    ensures first.Some? && !attachOk ==> |log| > 0 && log[|log| - 1] == Closed(first.value)
  {
    match first
    case None => []
    case Some(h) => if attachOk then [Opened(h)] else [Opened(h), AttachFailed(h), Closed(h)]
  }

  /** Everything `startSoftap` observes from outside. */
  datatype StartObs = StartObs(
    renameStale: char,            // `buffer` in startDriver when the ifname read fails
    configReady: bool,            // ensure_config_file_exists() succeeded
    hostapdBefore: Prop,          // init.svc.hostapd before starting
    hostapdCaptured: Prop,        // the property found just before ctl.start
    startPolls: nat -> Prop,      // the property at each poll
    stopStale: char,              // `buffer` in the stopDriver of a failed start
    connectStatus: Prop,          // init.svc.hostapd when connecting
    access: nat -> bool,          // each access() of the control socket file
    open: (string, nat) -> Option<Handle>,  // each wpa_ctrl_open attempt
    attachOk: bool)               // wpa_ctrl_attach returned 0

  /** Everything `stopSoftap` observes from outside. */
  datatype StopObs = StopObs(hostapdBefore: Prop, stopPolls: nat -> Prop, renameStale: char)

  /**
   * What an attempt to bring the AP up leaves behind: success, the radio
   * state, the connection kept, the requests made to init and the control
   * connection events.
   */
  datatype Launch = Launch(ok: bool, rfkillId: int, sys: Sysfs, conn: Option<Handle>,
                           requests: seq<DaemonRequest>, log: seq<CtrlEvent>)

  /**
   * The effect of the body of `startSoftap` when the AP is not started: the
   * driver is started, hostapd is requested unless it already runs, and a
   * failed hostapd start stops the driver again.
   */
  function LaunchSpec(id: int, sys: Sysfs, obs: StartObs): (l: Launch)
    requires ValidId(id, sys)
    ensures ValidId(l.rfkillId, l.sys)
    ensures l.ok <==> l.conn.Some?
    ensures l.requests == if IsRunning(obs.hostapdBefore) then [] else [CtlStart]
    ensures l.ok ==> l.log == [Opened(l.conn.value)]
    ensures !IsRunning(obs.connectStatus) ==> l.log == []
  {
    var driver := StartDriverSpec(id, sys, obs.renameStale, obs.configReady);
    var stop := StopDriverSpec(driver.rfkillId, driver.sys, obs.stopStale);
    var started := StartSpec(obs.hostapdBefore, obs.hostapdCaptured, obs.startPolls) == 0;
    var conn := if started then ConnectSpec(obs.connectStatus, obs.access, obs.open, obs.attachOk) else None;
    var log := if started && IsRunning(obs.connectStatus) then ConnectLog(FirstHandle(obs.access, obs.open), obs.attachOk) else [];
    Launch(conn.Some?, if started then driver.rfkillId else stop.rfkillId, if started then driver.sys else stop.sys,
      conn, if IsRunning(obs.hostapdBefore) then [] else [CtlStart], log)
  }

  /**
   * Bringing the AP up succeeds exactly when hostapd started, it was found
   * running at connect time and attaching worked; the connection is then the
   * first control socket opened. The driver is left started when hostapd
   * started and stopped again when it did not.
   */
  lemma LaunchOutcome(id: int, sys: Sysfs, obs: StartObs)
    requires ValidId(id, sys)
    ensures var l := LaunchSpec(id, sys, obs);
      var driver := StartDriverSpec(id, sys, obs.renameStale, obs.configReady);
      var started := StartSpec(obs.hostapdBefore, obs.hostapdCaptured, obs.startPolls) == 0;
      (l.ok <==> started && IsRunning(obs.connectStatus) && obs.attachOk && FirstHandle(obs.access, obs.open).Some?) &&
      (l.ok ==> l.conn == FirstHandle(obs.access, obs.open)) &&
      (started ==> l.rfkillId == driver.rfkillId && l.sys == driver.sys) &&
      (!started ==> l.sys == StopDriverSpec(driver.rfkillId, driver.sys, obs.stopStale).sys)
  {
  }

  class SoftapController {
    /** 1 while the AP runs (the fork is compiled out, so the "pid" is 1), 0 otherwise. */
    var mPid: int
    /** `ctrl_conn`: the hostapd control connection. */
    var ctrlConn: Option<Handle>
    /** `rfkill_id`: the WLAN rfkill switch, -1 until found. */
    var rfkillId: int
    /** `mProfileValid`. */
    var profileValid: int
    /** The sysfs files the radio helpers use. */
    var sys: Sysfs
    /** Whether "hotspot_wake_lock" is held. */
    var wakeLock: bool
    ghost var ctrlLog: seq<CtrlEvent>
    ghost var daemon: seq<DaemonRequest>
    ghost var history: seq<Completed>

    /**
     * The controller's invariant: a valid switch id, the profile flag at 0,
     * and a running AP exactly when a control connection is open, the wake
     * lock is held and the history says started.
     */
    ghost predicate Valid()
      reads this
    {
      ValidId(rfkillId, sys) && profileValid == 0 &&
      (mPid == 0 || mPid == 1) &&
      (mPid != 0 <==> ctrlConn.Some?) &&
      (mPid != 0 <==> wakeLock) &&
      (mPid != 0) == StartedAfter(history)
    }

    constructor (files: Sysfs)
      ensures Valid()
      ensures mPid == 0 && ctrlConn == None && rfkillId == -1 && sys == files && !wakeLock
      ensures ctrlLog == [] && daemon == [] && history == []
    {
      mPid := 0;
      ctrlConn := None;
      rfkillId := -1;
      profileValid := 0;
      sys := files;
      wakeLock := false;
      ctrlLog := [];
      daemon := [];
      history := [];
    }

    /** `isSoftapStarted`: the AP counts as started exactly when the history says a start is in force. */
    function IsSoftapStarted(): (started: bool)
      reads this
      requires Valid()
      ensures started <==> StartedSinceLastStop(history)
      ensures started <==> ctrlConn.Some?
    {
      StartedAfterIff(history);
      mPid != 0
    }

    /** `init_rfkill`: scan the switches from 0 for the first WLAN one; on failure the id is left as it was. */
    method InitRfkill() returns (ret: int)
      requires ValidId(rfkillId, sys)
      modifies this`rfkillId
      ensures ValidId(rfkillId, sys)
      ensures Scan(sys.rfkill, 0).None? ==> ret == -1 && rfkillId == old(rfkillId)
      ensures Scan(sys.rfkill, 0).Some? ==> ret == 0 && rfkillId == Scan(sys.rfkill, 0).value
    {
      var id := 0;
      while true
        invariant 0 <= id <= |sys.rfkill|
        invariant Scan(sys.rfkill, id) == Scan(sys.rfkill, 0)
        invariant rfkillId == old(rfkillId)
        decreases |sys.rfkill| - id
      {
        if id == |sys.rfkill| || sys.rfkill[id].kind.None? {
          return -1;
        }
        var kind := sys.rfkill[id].kind.value;
        if |kind| >= 4 && kind[..4] == "wlan" {
          rfkillId := id;
          break;
        }
        id := id + 1;
      }
      ret := 0;
    }

    /** `check_wifi_power`. */
    method CheckWifiPower() returns (ret: int)
      requires ValidId(rfkillId, sys)
      modifies this`rfkillId
      ensures ret == CheckPower(old(rfkillId), sys)
      ensures rfkillId == IdAfter(old(rfkillId), sys)
    {
      if rfkillId == -1 {
        var r := InitRfkill();
        if r != 0 {
          return -1;
        }
      }
      var f := sys.rfkill[rfkillId].state;
      if !f.readable || f.content == [] {
        return -1;
      }
      ret := -1;
      if f.content[0] == '1' {
        ret := 1;
      } else if f.content[0] == '0' {
        ret := 0;
      }
    }

    /** `set_wifi_power(on)`. */
    method SetWifiPower(on: bool) returns (ret: int)
      requires ValidId(rfkillId, sys)
      modifies this`rfkillId, this`sys
      ensures Step(ret, rfkillId, sys) == SetPower(old(rfkillId), old(sys), on)
    {
      if rfkillId == -1 {
        var r := InitRfkill();
        if r != 0 {
          return -1;
        }
      }
      var current := CheckWifiPower();
      if current == PowerValue(on) {
        return 0;
      }
      if !sys.rfkill[rfkillId].state.writable {
        return -1;
      }
      sys := WithState(sys, rfkillId, [PowerByte(on)]);
      ret := 0;
    }

    /** The rename block: read the first byte of the ifname parameter and write `name` unless it is `keep`. */
    method RenameInterface(keep: char, name: string, stale: char) returns (outcome: RenameOutcome)
      modifies this`sys
      ensures outcome == RenameResult(old(sys.ifname), keep, stale)
      ensures sys == old(sys).(ifname := RenamedParam(old(sys.ifname), keep, name, stale))
    {
      var p := sys.ifname;
      var buffer := stale;
      if p.openable && p.content != [] {
        buffer := p.content[0];
      }
      if buffer != keep && p.openable && p.writable {
        sys := sys.(ifname := p.(content := name));
        outcome := Renamed;
      } else if buffer == keep {
        outcome := AlreadyNamed;
      } else {
        outcome := RenameFailed;
      }
    }

    /** `startDriver`, rename branch. */
    method StartDriver(stale: char, configReady: bool) returns (ret: int)
      requires ValidId(rfkillId, sys)
      modifies this`rfkillId, this`sys
      ensures Step(ret, rfkillId, sys) == StartDriverSpec(old(rfkillId), old(sys), stale, configReady)
    {
      var _ := SetWifiPower(false);
      var outcome := RenameInterface('a', ApIfname, stale);
      match outcome {
        case Renamed =>
          ret := SetWifiPower(true);
        case AlreadyNamed =>
          ret := 0;
        case RenameFailed =>
          ret := -2;
      }
      if ret != 0 {
        return -1;
      }
      if !configReady {
        return -1;
      }
    }

    /** `stopDriver`, rename branch. */
    method StopDriver(stale: char) returns (ret: int)
      requires ValidId(rfkillId, sys)
      modifies this`rfkillId, this`sys
      ensures Step(ret, rfkillId, sys) == StopDriverSpec(old(rfkillId), old(sys), stale)
    {
      ret := SetWifiPower(false);
      if ret == 0 {
        var outcome := RenameInterface('w', StaIfname, stale);
        ret := RenameRet(outcome);
      }
    }

    /**
     * `wifi_connect_to_hostapd`: nothing is opened unless hostapd runs; a
     * failed attach closes the handle again.
     */
    method ConnectToHostapd(status: Prop, access: nat -> bool, open: (string, nat) -> Option<Handle>, attachOk: bool)
      returns (ret: int)
      modifies this`ctrlConn, this`ctrlLog
      ensures ret == 0 || ret == -1
      ensures ret == 0 <==> IsRunning(status) && ctrlConn.Some?
      ensures !IsRunning(status) ==> ctrlConn == old(ctrlConn) && ctrlLog == old(ctrlLog)
      ensures IsRunning(status) ==> ctrlConn == ConnectSpec(status, access, open, attachOk)
      ensures IsRunning(status) ==>
        ctrlLog == old(ctrlLog) + ConnectLog(FirstHandle(access, open), attachOk)
    {
      if !IsRunning(status) {
        return -1;
      }
      var conn := WaitAndOpen(access, open);
      ghost var log := ConnectLog(conn, attachOk);
      ctrlConn := conn;
      if conn.None? {
        assert log == [];
        return -1;
      }
      var h := conn.value;
      ctrlLog := ctrlLog + [Opened(h)];
      if !attachOk {
        ctrlLog := ctrlLog + [AttachFailed(h), Closed(h)];
        ctrlConn := None;
        assert ctrlLog == old(ctrlLog) + log;
        return -1;
      }
      ret := 0;
    }

    /** `wifi_close_hostapd_connection`: afterwards there is no connection; a second call does nothing. */
    method CloseHostapdConnection()
      modifies this`ctrlConn, this`ctrlLog
      ensures ctrlConn == None
      ensures ctrlLog == old(ctrlLog) + if old(ctrlConn).Some? then [Closed(old(ctrlConn).value)] else []
    {
      if ctrlConn.Some? {
        ctrlLog := ctrlLog + [Closed(ctrlConn.value)];
        ctrlConn := None;
      }
    }

    /**
     * The middle of `startSoftap`: start hostapd, stopping the driver again
     * when that fails, then connect to it. Succeeds exactly when hostapd
     * started and a connection was made; a connect failure is not unwound.
     */
    method LaunchHostapd(obs: StartObs) returns (ok: bool)
      requires ValidId(rfkillId, sys) && ctrlConn.None?
      modifies this`rfkillId, this`sys, this`daemon, this`ctrlConn, this`ctrlLog
      ensures ValidId(rfkillId, sys)
      ensures ok <==> ctrlConn.Some?
      ensures ok <==>
        StartSpec(obs.hostapdBefore, obs.hostapdCaptured, obs.startPolls) == 0 &&
        ConnectSpec(obs.connectStatus, obs.access, obs.open, obs.attachOk).Some?
      ensures ok ==> ctrlConn == ConnectSpec(obs.connectStatus, obs.access, obs.open, obs.attachOk)
      ensures daemon == old(daemon) + (if IsRunning(obs.hostapdBefore) then [] else [CtlStart])
      ensures ctrlLog == old(ctrlLog) +
        if StartSpec(obs.hostapdBefore, obs.hostapdCaptured, obs.startPolls) == 0 && IsRunning(obs.connectStatus)
        then ConnectLog(FirstHandle(obs.access, obs.open), obs.attachOk) else []
      ensures StartSpec(obs.hostapdBefore, obs.hostapdCaptured, obs.startPolls) == 0 ==>
        rfkillId == old(rfkillId) && sys == old(sys)
      ensures StartSpec(obs.hostapdBefore, obs.hostapdCaptured, obs.startPolls) != 0 ==>
        rfkillId == StopDriverSpec(old(rfkillId), old(sys), obs.stopStale).rfkillId &&
        sys == StopDriverSpec(old(rfkillId), old(sys), obs.stopStale).sys
    {
      var ret, requested := StartHostapd(obs.hostapdBefore, obs.hostapdCaptured, obs.startPolls);
      if requested {
        daemon := daemon + [CtlStart];
      }
      if ret < 0 {
        var _ := StopDriver(obs.stopStale);
        return false;
      }
      ret := ConnectToHostapd(obs.connectStatus, obs.access, obs.open, obs.attachOk);
      ok := ret == 0;
    }

    /**
     * The part of `startSoftap` that runs when the AP is not started: start
     * the driver (its result ignored), then launch hostapd and connect to it.
     */
    method BringUp(obs: StartObs) returns (ok: bool)
      requires ValidId(rfkillId, sys) && ctrlConn.None?
      modifies this`rfkillId, this`sys, this`daemon, this`ctrlConn, this`ctrlLog
      ensures var l := LaunchSpec(old(rfkillId), old(sys), obs);
        ok == l.ok && rfkillId == l.rfkillId && sys == l.sys && ctrlConn == l.conn && daemon == old(daemon) + l.requests &&
        ctrlLog == old(ctrlLog) + l.log
    {
      var _ := StartDriver(obs.renameStale, obs.configReady);
      ok := LaunchHostapd(obs);
    }

    /**
     * `startSoftap` when the AP is not started: bring it up; on success load
     * the profile, record the AP as running and take the wake lock.
     */
    method StartStopped(obs: StartObs) returns (code: ResponseCode)
      requires Valid() && mPid == 0
      modifies this
      ensures Valid()
      ensures history == old(history) + [if code == SoftapStatusResult then StartSucceeded else StartFailed]
      ensures code == SoftapStatusResult || code == ServiceStartFailed
      ensures var l := LaunchSpec(old(rfkillId), old(sys), obs);
        (code == SoftapStatusResult <==> l.ok) && rfkillId == l.rfkillId && sys == l.sys &&
        ctrlConn == l.conn && daemon == old(daemon) + l.requests && ctrlLog == old(ctrlLog) + l.log
    {
      var ok := BringUp(obs);
      if ok {
        code := MarkStarted();
      } else {
        code := MarkFailed();
      }
    }

    /** The end of a failed `startSoftap`: the AP stays stopped. */
    method MarkFailed() returns (code: ResponseCode)
      requires ValidId(rfkillId, sys) && profileValid == 0 && mPid == 0 && !wakeLock
      requires ctrlConn.None? && !StartedAfter(history)
      modifies this`history
      ensures Valid() && code == ServiceStartFailed && history == old(history) + [StartFailed]
    {
      code := ServiceStartFailed;
      StartedAfterSnoc(history, StartFailed);
      history := history + [StartFailed];
    }

    /** The end of a successful `startSoftap`: load the profile, record the AP as running, take the wake lock. */
    method MarkStarted() returns (code: ResponseCode)
      requires ValidId(rfkillId, sys) && profileValid == 0 && mPid == 0 && !wakeLock
      requires ctrlConn.Some? && !StartedAfter(history)
      modifies this`mPid, this`wakeLock, this`history
      ensures Valid() && code == SoftapStatusResult && history == old(history) + [StartSucceeded]
    {
      var ret := WifiLoadProfile(true, profileValid, ctrlConn);
      assert ret == 0;
      mPid := 1;
      wakeLock := true;
      code := SoftapStatusResult;
      StartedAfterSnoc(history, StartSucceeded);
      history := history + [StartSucceeded];
    }

    /**
     * `startSoftap`. The driver start's result is ignored; a hostapd start
     * failure stops the driver again, a connect failure leaves hostapd and
     * the driver as they are. The AP counts as started only when hostapd
     * started and the connection was made.
     */
    method StartSoftap(obs: StartObs) returns (code: ResponseCode)
      requires Valid()
      modifies this
      ensures Valid()
      ensures history == old(history) + [if code == SoftapStatusResult then StartSucceeded else StartFailed]
      ensures code == SoftapStatusResult || code == ServiceStartFailed
      ensures old(mPid) != 0 ==>
        code == SoftapStatusResult && mPid == old(mPid) && ctrlConn == old(ctrlConn) &&
        sys == old(sys) && rfkillId == old(rfkillId) && daemon == old(daemon) && ctrlLog == old(ctrlLog)
      ensures old(mPid) == 0 ==>
        var l := LaunchSpec(old(rfkillId), old(sys), obs);
        (code == SoftapStatusResult <==> l.ok) && rfkillId == l.rfkillId && sys == l.sys &&
        ctrlConn == l.conn && daemon == old(daemon) + l.requests && ctrlLog == old(ctrlLog) + l.log
    {
      if mPid != 0 {
        code := SoftapStatusResult;
        StartedAfterSnoc(history, StartSucceeded);
        history := history + [StartSucceeded];
        return;
      }
      code := StartStopped(obs);
    }

    /**
     * The part of `stopSoftap` that runs when the AP is started: close the
     * connection, stop hostapd, power the radio off and rename the interface
     * back, ignoring every result.
     */
    method TearDown(obs: StopObs)
      requires ValidId(rfkillId, sys) && ctrlConn.Some?
      modifies this`rfkillId, this`sys, this`daemon, this`ctrlConn, this`ctrlLog
      ensures ValidId(rfkillId, sys) && ctrlConn == None
      ensures var off := SetPower(old(rfkillId), old(sys), false);
        ctrlLog == old(ctrlLog) + [Closed(old(ctrlConn).value)] &&
        daemon == old(daemon) + (if IsStopped(obs.hostapdBefore) then [] else [CtlStop]) &&
        rfkillId == off.rfkillId &&
        sys == off.sys.(ifname := RenamedParam(off.sys.ifname, 'w', StaIfname, obs.renameStale))
    {
      CloseHostapdConnection();
      var _, requested := StopHostapd(obs.hostapdBefore, obs.stopPolls);
      if requested {
        daemon := daemon + [CtlStop];
      }
      var _ := SetWifiPower(false);
      var _ := RenameInterface('w', StaIfname, obs.renameStale);
    }

    /**
     * `stopSoftap`. With the AP running: close the connection, stop hostapd
     * (its result is ignored), forget the AP, power the radio off and rename
     * the interface back to "wlan0" (both results ignored), release the wake lock.
     */
    method StopSoftap(obs: StopObs) returns (code: ResponseCode)
      requires Valid()
      modifies this
      ensures Valid()
      ensures code == SoftapStatusResult && mPid == 0 && ctrlConn == None && !wakeLock
      ensures history == old(history) + [Stopped]
      ensures old(mPid) == 0 ==>
        sys == old(sys) && rfkillId == old(rfkillId) && daemon == old(daemon) && ctrlLog == old(ctrlLog)
      ensures old(mPid) != 0 ==>
        var off := SetPower(old(rfkillId), old(sys), false);
        ctrlLog == old(ctrlLog) + [Closed(old(ctrlConn).value)] &&
        daemon == old(daemon) + (if IsStopped(obs.hostapdBefore) then [] else [CtlStop]) &&
        rfkillId == off.rfkillId &&
        sys == off.sys.(ifname := RenamedParam(off.sys.ifname, 'w', StaIfname, obs.renameStale))
    {
      if mPid == 0 {
        code := SoftapStatusResult;
        history := history + [Stopped];
        return;
      }
      TearDown(obs);
      mPid := 0;
      wakeLock := false;
      code := SoftapStatusResult;
      history := history + [Stopped];
    }

    /**
     * `setSoftap` as written: after the file is closed normally the result of
     * loading the profile is returned, so a failed write still reports
     * success.
     */
    function SetSoftap(argv: seq<CString>, io: FileIo): (r: SetOutcome)
      reads this
      requires Valid()
      ensures |argv| < 5 ==> r == Finished(CommandSyntaxError, Untouched)
      ensures |argv| == 5 ==> r == UndefinedBehaviour(ChannelPastEnd)
      ensures |argv| >= 6 && !FitsInt(Atoi(argv[5])) ==> r == UndefinedBehaviour(ChannelOverflow)
      ensures |argv| >= 6 && FitsInt(Atoi(argv[5])) && io.openOk && AthConfigText(argv).Some? ==>
        r.Finished? && (r.code == SoftapStatusResult <==> io.chmodOk && io.chownOk)
      ensures |argv| >= 6 && r.Finished? && r.code == SoftapStatusResult ==>
        AthConfigText(argv).Some? && r.file == Written(if io.writeOk then AthConfigText(argv).value else "")
    {
      if |argv| < 5 then Finished(CommandSyntaxError, Untouched)
      else if |argv| == 5 then UndefinedBehaviour(ChannelPastEnd)
      else if !FitsInt(Atoi(argv[5])) then UndefinedBehaviour(ChannelOverflow)
      else AfterLoad(WriteConfig(AthConfigText(argv), io), WifiLoadProfile(IsSoftapStarted(), profileValid, ctrlConn))
    }

    /** `setSoftap` as evidently intended: success only when the text was written. */
    function SetSoftapChecked(argv: seq<CString>, io: FileIo): (r: SetOutcome)
      reads this
      requires Valid()
      ensures |argv| < 5 ==> r == Finished(CommandSyntaxError, Untouched)
      ensures |argv| == 5 ==> r == UndefinedBehaviour(ChannelPastEnd)
      ensures |argv| >= 6 && !FitsInt(Atoi(argv[5])) ==> r == UndefinedBehaviour(ChannelOverflow)
      ensures |argv| >= 6 && FitsInt(Atoi(argv[5])) && io.openOk && AthConfigText(argv).Some? ==>
        r.Finished? && (r.code == SoftapStatusResult <==> io.writeOk && io.chmodOk && io.chownOk)
      ensures |argv| >= 6 && r.Finished? && r.code == SoftapStatusResult ==>
        AthConfigText(argv).Some? && r.file == Written(AthConfigText(argv).value)
    {
      if |argv| < 5 then Finished(CommandSyntaxError, Untouched)
      else if |argv| == 5 then UndefinedBehaviour(ChannelPastEnd)
      else if !FitsInt(Atoi(argv[5])) then UndefinedBehaviour(ChannelOverflow)
      else AfterLoadChecked(WriteConfig(AthConfigText(argv), io), WifiLoadProfile(IsSoftapStarted(), profileValid, ctrlConn))
    }
  }

  /**
   * The masked write failure: with every call succeeding except `write`,
   * `setSoftap` reports success over an emptied configuration file, where the
   * corrected version reports OperationFailed.
   */
  lemma WriteFailureMasked(c: SoftapController, argv: seq<CString>)
    requires c.Valid() && |argv| == 6 && FitsInt(Atoi(argv[5]))
    ensures c.SetSoftap(argv, FileIo(true, false, true, true)) == Finished(SoftapStatusResult, Written(""))
    ensures c.SetSoftapChecked(argv, FileIo(true, false, true, true)) == Finished(OperationFailed, Written(""))
  {
  }
}
