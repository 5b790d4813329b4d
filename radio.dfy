/**
 * The Atheros radio helpers of SoftapControllerATH.cpp, as functions of the
 * cached rfkill switch id and a snapshot of the sysfs files they use:
 * finding the WLAN rfkill switch (`init_rfkill`), reading and setting its
 * power state (`check_wifi_power`, `set_wifi_power`), and the interface
 * rename of `startDriver`/`stopDriver` through the ar6000 module's `ifname`
 * parameter. The controller's methods are proved against these functions.
 *
 * sysfs is modelled as a value that only these helpers change: a successful
 * write makes the file read back as what was written.
 */
module Radio {
  import opened Wrappers

  /** /sys/class/rfkill/rfkill<id>/state: whether it opens for reading and for writing, and its bytes. */
  datatype StateFile = StateFile(readable: bool, writable: bool, content: string)

  /**
   * One rfkill switch: the bytes a read of its `type` file returns (None
   * when the file cannot be opened) and its `state` file.
   */
  datatype RfkillNode = RfkillNode(kind: Option<string>, state: StateFile)

  /** /sys/module/ar6000/parameters/ifname, opened read-write. */
  datatype IfnameParam = IfnameParam(openable: bool, writable: bool, content: string)

  /** The switches rfkill0 .. rfkill<n-1> (no higher one exists) and the ifname parameter. */
  datatype Sysfs = Sysfs(rfkill: seq<RfkillNode>, ifname: IfnameParam)

  /** A helper's return value with the switch id and the files it leaves. */
  datatype Step = Step(ret: int, rfkillId: int, sys: Sysfs)

  /** `rfkill_id` is -1 (not yet found) or names an existing switch. */
  predicate ValidId(id: int, sys: Sysfs) {
    id == -1 || 0 <= id < |sys.rfkill|
  }

  /** The type file's first four bytes are "wlan". */
  predicate IsWlan(kind: string) {
    |kind| >= 4 && kind[..4] == "wlan"
  }

  predicate IsWlanNode(n: RfkillNode) {
    n.kind.Some? && IsWlan(n.kind.value)
  }

  /**
   * The scan of `init_rfkill` from switch `id` on: the first switch whose
   * type is WLAN, or None when a type file fails to open first.
   */
  function Scan(nodes: seq<RfkillNode>, id: nat): (r: Option<nat>)
    decreases |nodes| - id
    ensures r.Some? ==> id <= r.value < |nodes| && IsWlanNode(nodes[r.value])
    ensures r.Some? ==> forall j :: id <= j < r.value ==> nodes[j].kind.Some? && !IsWlanNode(nodes[j])
  {
    if id >= |nodes| || nodes[id].kind.None? then None
    else if IsWlan(nodes[id].kind.value) then Some(id)
    else Scan(nodes, id + 1)
  }

  /**
   * `init_rfkill` finds switch `i` exactly when `i` is the lowest WLAN switch
   * and every type file before it opened.
   */
  lemma {:induction false} ScanLowest(nodes: seq<RfkillNode>, from: nat, i: nat)
    requires from <= i
    decreases i - from
    ensures Scan(nodes, from) == Some(i) <==>
      i < |nodes| && IsWlanNode(nodes[i]) &&
      forall j :: from <= j < i ==> nodes[j].kind.Some? && !IsWlanNode(nodes[j])
  {
    if from < i && from < |nodes| && nodes[from].kind.Some? && !IsWlan(nodes[from].kind.value) {
      ScanLowest(nodes, from + 1, i);
    }
  }

  /** The switch id after the `rfkill_id == -1` test: the cached one, or the scan's. */
  function KnownId(id: int, sys: Sysfs): (k: Option<nat>)
    requires ValidId(id, sys)
    ensures k.Some? ==> k.value < |sys.rfkill|
    ensures id >= 0 ==> k == Some(id)
  {
    if id >= 0 then Some(id) else Scan(sys.rfkill, 0)
  }

  /** `rfkill_id` after a helper that may have called `init_rfkill`. */
  function IdAfter(id: int, sys: Sysfs): (n: int)
    requires ValidId(id, sys)
    ensures ValidId(n, sys)
  {
    match KnownId(id, sys)
    case None => id
    case Some(k) => k
  }

  /** The `switch` on the state byte: '1' is on, '0' off, anything else -1. */
  function DecodePower(b: char): (p: int)
    ensures b == '1' <==> p == 1
    ensures b == '0' <==> p == 0
    ensures b != '0' && b != '1' <==> p == -1
  {
    if b == '1' then 1 else if b == '0' then 0 else -1
  }

  /** The state file's reading: -1 when it does not open or a one-byte read returns nothing. */
  function ReadPower(f: StateFile): int {
    if !f.readable || f.content == [] then -1 else DecodePower(f.content[0])
  }

  /** `check_wifi_power`: the reading of the WLAN switch, or -1 when none is found. */
  function CheckPower(id: int, sys: Sysfs): (p: int)
    requires ValidId(id, sys)
    ensures p == 1 <==> KnownId(id, sys).Some? && ReadPower(sys.rfkill[KnownId(id, sys).value].state) == 1
    ensures p == 0 <==> KnownId(id, sys).Some? && ReadPower(sys.rfkill[KnownId(id, sys).value].state) == 0
    ensures p == -1 <==> KnownId(id, sys).None? || ReadPower(sys.rfkill[KnownId(id, sys).value].state) == -1
  {
    match KnownId(id, sys)
    case None => -1
    case Some(k) => ReadPower(sys.rfkill[k].state)
  }

  /** The reading that means "on" (1) or "off" (0), and the byte written for it. */
  function PowerValue(on: bool): int {
    if on then 1 else 0
  }

  function PowerByte(on: bool): char {
    if on then '1' else '0'
  }

  /** The files after `content` is written to switch `k`'s state file; nothing else changes. */
  function WithState(sys: Sysfs, k: nat, content: string): (s: Sysfs)
    requires k < |sys.rfkill|
    ensures |s.rfkill| == |sys.rfkill| && s.ifname == sys.ifname
    ensures s.rfkill[k].state == sys.rfkill[k].state.(content := content)
    ensures forall j :: 0 <= j < |sys.rfkill| && j != k ==> s.rfkill[j] == sys.rfkill[j]
    ensures s.rfkill[k].kind == sys.rfkill[k].kind
  {
    sys.(rfkill := sys.rfkill[k := sys.rfkill[k].(state := sys.rfkill[k].state.(content := content))])
  }

  /**
   * `set_wifi_power(on)`: -1 when no WLAN switch is found; 0 without writing
   * when the reading already is `on`; otherwise the state byte is written,
   * giving 0, or -1 when the state file cannot be written.
   */
  function SetPower(id: int, sys: Sysfs, on: bool): (r: Step)
    requires ValidId(id, sys)
    ensures ValidId(r.rfkillId, r.sys) && r.rfkillId == IdAfter(id, sys)
    ensures r.ret == 0 || r.ret == -1
    ensures r.sys.ifname == sys.ifname && |r.sys.rfkill| == |sys.rfkill|
    ensures KnownId(id, sys).None? ==> r == Step(-1, id, sys)
    ensures CheckPower(id, sys) == PowerValue(on) ==> r.ret == 0 && r.sys == sys
    ensures r.ret == 0 && r.sys != sys ==>
      r.sys == WithState(sys, r.rfkillId, [PowerByte(on)]) && sys.rfkill[r.rfkillId].state.writable
    ensures r.ret == -1 ==> r.sys == sys
    ensures KnownId(id, sys).Some? && CheckPower(KnownId(id, sys).value, sys) != PowerValue(on) ==>
      (r.ret == 0 <==> sys.rfkill[KnownId(id, sys).value].state.writable) &&
      (r.ret == 0 ==> r.sys == WithState(sys, KnownId(id, sys).value, [PowerByte(on)]))
  {
    match KnownId(id, sys)
    case None => Step(-1, id, sys)
    case Some(k) =>
      if ReadPower(sys.rfkill[k].state) == PowerValue(on) then Step(0, k, sys)
      else if !sys.rfkill[k].state.writable then Step(-1, k, sys)
      else Step(0, k, WithState(sys, k, [PowerByte(on)]))
  }

  /** After a successful `set_wifi_power(on)` a readable switch reads `on`. */
  lemma SetPowerReadsBack(id: int, sys: Sysfs, on: bool)
    requires ValidId(id, sys)
    requires SetPower(id, sys, on).ret == 0
    requires sys.rfkill[SetPower(id, sys, on).rfkillId].state.readable
    ensures CheckPower(SetPower(id, sys, on).rfkillId, SetPower(id, sys, on).sys) == PowerValue(on)
  {
  }

  /** `set_wifi_power` is idempotent: a second call with the same argument changes nothing and returns the same. */
  lemma SetPowerIdempotent(id: int, sys: Sysfs, on: bool)
    requires ValidId(id, sys)
    ensures var r := SetPower(id, sys, on);
      SetPower(r.rfkillId, r.sys, on) == r
  {
    var r := SetPower(id, sys, on);
    match KnownId(id, sys)
    case None =>
    case Some(k) =>
      assert r.rfkillId == k;
      if r.sys != sys {
        assert r.sys.rfkill[k].state == sys.rfkill[k].state.(content := [PowerByte(on)]);
        assert r.sys == WithState(r.sys, k, [PowerByte(on)]);
      }
  }

  /** How the rename block ends: written, already named, or failed. */
  datatype RenameOutcome = Renamed | AlreadyNamed | RenameFailed

  /**
   * The byte the rename block tests: the parameter's first byte when it
   * opens and a read returns one, otherwise `stale`, the uninitialised
   * local `buffer` the C code then reads.
   */
  function FirstByte(p: IfnameParam, stale: char): char {
    if p.openable && p.content != [] then p.content[0] else stale
  }

  /**
   * The rename block with the mode's initial `keep` ('a' for AP, 'w' for
   * station) and its interface name: the name is written unless the first
   * byte already is `keep`.
   */
  function RenameResult(p: IfnameParam, keep: char, stale: char): (o: RenameOutcome)
    ensures o == AlreadyNamed <==> FirstByte(p, stale) == keep
    ensures o == Renamed <==> FirstByte(p, stale) != keep && p.openable && p.writable
    ensures o == RenameFailed <==> FirstByte(p, stale) != keep && !(p.openable && p.writable)
  {
    if FirstByte(p, stale) != keep && p.openable && p.writable then Renamed
    else if FirstByte(p, stale) == keep then AlreadyNamed
    else RenameFailed
  }

  /** The parameter after the rename block: it holds `name` exactly when it was written. */
  function RenamedParam(p: IfnameParam, keep: char, name: string, stale: char): (q: IfnameParam)
    ensures q.openable == p.openable && q.writable == p.writable
    ensures q.content == if RenameResult(p, keep, stale) == Renamed then name else p.content
  {
    if RenameResult(p, keep, stale) == Renamed then p.(content := name) else p
  }

  /** The rename block's own `ret`, before any power-on: -2 for a failed rename. */
  function RenameRet(o: RenameOutcome): int {
    match o
    case Renamed => 0
    case AlreadyNamed => 0
    case RenameFailed => -2
  }

  /** AP_IFNAME and STA_IFNAME as the driver parameter takes them. */
  const ApIfname := "athap0"
  const StaIfname := "wlan0"

  /**
   * The rename branch of `startDriver`: power off (result ignored), rename
   * to "athap0" unless already named for AP, and power on after a rename;
   * a nonzero result is -1, and so is a missing configuration file
   * (`configReady` false: `ensure_config_file_exists` failed).
   */
  function StartDriverSpec(id: int, sys: Sysfs, stale: char, configReady: bool): (r: Step)
    requires ValidId(id, sys)
    ensures ValidId(r.rfkillId, r.sys)
    ensures r.ret == 0 || r.ret == -1
  {
    var off := SetPower(id, sys, false);
    var p := off.sys.ifname;
    var renamed := off.sys.(ifname := RenamedParam(p, 'a', ApIfname, stale));
    var s := match RenameResult(p, 'a', stale)
      case Renamed => SetPower(off.rfkillId, renamed, true)
      case AlreadyNamed => Step(0, off.rfkillId, renamed)
      case RenameFailed => Step(-2, off.rfkillId, renamed);
    if s.ret != 0 then Step(-1, s.rfkillId, s.sys)
    else if !configReady then Step(-1, s.rfkillId, s.sys)
    else s
  }

  /**
   * `startDriver` succeeds exactly when the configuration file is there and
   * either the interface already had an AP name or the rename was written
   * and powering on then succeeded.
   */
  lemma StartDriverDecision(id: int, sys: Sysfs, stale: char, configReady: bool)
    requires ValidId(id, sys)
    ensures var off := SetPower(id, sys, false);
      var p := off.sys.ifname;
      StartDriverSpec(id, sys, stale, configReady).ret == 0 <==>
        configReady &&
        (FirstByte(p, stale) == 'a' ||
         (p.openable && p.writable &&
          SetPower(off.rfkillId, off.sys.(ifname := p.(content := ApIfname)), true).ret == 0))
  {
  }

  /**
   * With the interface already named for AP, `startDriver` leaves the radio
   * as its initial power-off left it: nothing powers it on again.
   */
  lemma AlreadyApLeavesPowerOff(id: int, sys: Sysfs, stale: char, configReady: bool)
    requires ValidId(id, sys)
    requires FirstByte(SetPower(id, sys, false).sys.ifname, stale) == 'a'
    ensures StartDriverSpec(id, sys, stale, configReady).sys == SetPower(id, sys, false).sys
  {
  }

  /** A rename to AP mode leaves "athap0" in the parameter. */
  lemma StartDriverRenames(id: int, sys: Sysfs, stale: char, configReady: bool)
    requires ValidId(id, sys)
    requires sys.ifname.openable && sys.ifname.writable
    requires FirstByte(sys.ifname, stale) != 'a'
    ensures StartDriverSpec(id, sys, stale, configReady).sys.ifname == sys.ifname.(content := ApIfname)
  {
  }

  /**
   * The rename branch of `stopDriver`: power off; when that succeeds,
   * rename to "wlan0" unless already named for station mode (-2 when the
   * rename fails); a failed power-off is returned as is.
   */
  function StopDriverSpec(id: int, sys: Sysfs, stale: char): (r: Step)
    requires ValidId(id, sys)
    ensures ValidId(r.rfkillId, r.sys)
    ensures r.ret == 0 || r.ret == -1 || r.ret == -2
  {
    var off := SetPower(id, sys, false);
    if off.ret != 0 then off
    else
      var p := off.sys.ifname;
      Step(RenameRet(RenameResult(p, 'w', stale)), off.rfkillId,
           off.sys.(ifname := RenamedParam(p, 'w', StaIfname, stale)))
  }

  /**
   * The whole decision of the rename branch of `stopDriver`: a failed
   * power-off is returned as is; otherwise an interface already named for
   * station mode succeeds without a write, a written rename succeeds with
   * "wlan0" in the parameter, and a rename that cannot be written gives -2.
   */
  lemma StopDriverDecision(id: int, sys: Sysfs, stale: char)
    requires ValidId(id, sys)
    ensures var off := SetPower(id, sys, false); var s := StopDriverSpec(id, sys, stale);
      var p := off.sys.ifname;
      s.rfkillId == off.rfkillId &&
      (off.ret != 0 ==> s == off) &&
      (off.ret == 0 && FirstByte(p, stale) == 'w' ==> s.ret == 0 && s.sys == off.sys) &&
      (off.ret == 0 && FirstByte(p, stale) != 'w' && p.openable && p.writable ==>
        s.ret == 0 && s.sys == off.sys.(ifname := p.(content := StaIfname))) &&
      (off.ret == 0 && FirstByte(p, stale) != 'w' && !(p.openable && p.writable) ==>
        s.ret == -2 && s.sys == off.sys)
  {
  }

  /**
   * `stopDriver` after a rename to AP mode: it succeeds exactly when the
   * power-off does, and then the parameter holds "wlan0" again.
   */
  lemma StopDriverRestoresStaName(id: int, sys: Sysfs, stale: char)
    requires ValidId(id, sys)
    requires sys.ifname == IfnameParam(true, true, ApIfname)
    ensures StopDriverSpec(id, sys, stale).ret == 0 <==> SetPower(id, sys, false).ret == 0
    ensures StopDriverSpec(id, sys, stale).ret == 0 ==>
      StopDriverSpec(id, sys, stale).sys.ifname == IfnameParam(true, true, StaIfname)
  {
    assert FirstByte(sys.ifname, stale) == 'a';
  }

  /**
   * A driver start that renamed the interface, followed by a driver stop
   * whose power-off succeeds, puts the station name back.
   */
  lemma StartStopRoundTrip(id: int, sys: Sysfs, stale1: char, stale2: char, configReady: bool)
    requires ValidId(id, sys)
    requires sys.ifname.openable && sys.ifname.writable
    requires FirstByte(sys.ifname, stale1) != 'a'
    ensures var s := StartDriverSpec(id, sys, stale1, configReady);
      var t := StopDriverSpec(s.rfkillId, s.sys, stale2);
      t.ret == 0 ==> t.sys.ifname == sys.ifname.(content := StaIfname)
  {
    var s := StartDriverSpec(id, sys, stale1, configReady);
    StartDriverRenames(id, sys, stale1, configReady);
    StopDriverRestoresStaName(s.rfkillId, s.sys, stale2);
  }
}
