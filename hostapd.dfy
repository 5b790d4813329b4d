/**
 * How SoftapControllerATH.cpp drives the hostapd daemon: starting and
 * stopping it through init's `ctl.start`/`ctl.stop` and polling the
 * `init.svc.hostapd` status property a bounded number of times, waiting for
 * the control socket file, and opening the control connection with retries.
 *
 * Every observation is an oracle indexed by the poll or attempt number: the
 * property as poll k reads it, whether `access` succeeds on call k, what
 * `wpa_ctrl_open` returns on attempt k. Sleeps and yields have no effect here.
 */
module Hostapd {
  import opened Wrappers
  import HostapdConf
  import Radio

  /** init.svc.hostapd as one read sees it: not yet created, or a value and its serial number. */
  datatype Prop = Missing | Present(value: string, serial: nat)

  predicate IsRunning(p: Prop) {
    p.Present? && p.value == "running"
  }

  predicate IsStopped(p: Prop) {
    p.Present? && p.value == "stopped"
  }

  /** The serial captured before `ctl.start`: 0 when the property does not exist yet. */
  function SerialOf(p: Prop): nat {
    if p.Present? then p.serial else 0
  }

  /** A poll that sees hostapd stopped under a serial other than the captured one: it started and died. */
  predicate DiedAfterStart(p: Prop, serial: nat) {
    p.Present? && p.serial != serial && p.value == "stopped"
  }

  /** `count` in `wifi_start_hostapd`: at most 300 polls, 100 ms apart. */
  const StartPolls := 300

  /** `count` in `wifi_stop_hostapd`: at most 50 polls, 100 ms apart. */
  const StopPolls := 50

  /** The start polls from poll k on: 0 at the first "running", -1 at the first death or when the polls run out. */
  function StartPollFrom(poll: nat -> Prop, serial: nat, k: nat): (r: int)
    decreases StartPolls - k
    ensures r == 0 || r == -1
  {
    if k >= StartPolls then -1
    else if IsRunning(poll(k)) then 0
    else if DiedAfterStart(poll(k), serial) then -1
    else StartPollFrom(poll, serial, k + 1)
  }

  /**
   * `wifi_start_hostapd`'s result: 0 at once when `before` says running;
   * otherwise the polls decide, against the serial of `captured`, the
   * property as looked up just before `ctl.start`.
   */
  function StartSpec(before: Prop, captured: Prop, poll: nat -> Prop): (r: int)
    ensures IsRunning(before) ==> r == 0
    ensures r == 0 || r == -1
  {
    if IsRunning(before) then 0 else StartPollFrom(poll, SerialOf(captured), 0)
  }

  /**
   * `wifi_start_hostapd`. `requested` says whether `ctl.start` was set
   * (and stale sockets cleaned up) at all.
   */
  method StartHostapd(before: Prop, captured: Prop, poll: nat -> Prop) returns (r: int, requested: bool)
    ensures r == StartSpec(before, captured, poll)
    ensures requested <==> !IsRunning(before)
  {
    if IsRunning(before) {
      return 0, false;
    }
    requested := true;
    var serial := SerialOf(captured);
    var count := StartPolls;
    var k := 0;
    while count > 0
      invariant 0 <= count <= StartPolls && k == StartPolls - count
      invariant StartPollFrom(poll, serial, k) == StartPollFrom(poll, serial, 0)
    {
      count := count - 1;
      var p := poll(k);
      if IsRunning(p) {
        return 0, true;
      } else if p.Present? && p.serial != serial && p.value == "stopped" {
        return -1, true;
      }
      k := k + 1;
    }
    r := -1;
  }

  /**
   * From poll `from` on, the start succeeds exactly when some poll among the
   * first 300 sees "running" and no poll before it saw hostapd die.
   */
  lemma {:induction false} StartPollFromIff(poll: nat -> Prop, serial: nat, from: nat)
    decreases StartPolls - from
    ensures StartPollFrom(poll, serial, from) == 0 <==>
      exists k :: from <= k < StartPolls && IsRunning(poll(k)) &&
        forall j :: from <= j < k ==> !DiedAfterStart(poll(j), serial)
  {
    if from < StartPolls && !IsRunning(poll(from)) && !DiedAfterStart(poll(from), serial) {
      StartPollFromIff(poll, serial, from + 1);
      if StartPollFrom(poll, serial, from) == 0 {
        var k :| from + 1 <= k < StartPolls && IsRunning(poll(k)) &&
          forall j :: from + 1 <= j < k ==> !DiedAfterStart(poll(j), serial);
        assert forall j :: from <= j < k ==> !DiedAfterStart(poll(j), serial);
      }
      if exists k :: from <= k < StartPolls && IsRunning(poll(k)) &&
          forall j :: from <= j < k ==> !DiedAfterStart(poll(j), serial) {
        var k :| from <= k < StartPolls && IsRunning(poll(k)) &&
          forall j :: from <= j < k ==> !DiedAfterStart(poll(j), serial);
        assert k != from;
        assert forall j :: from + 1 <= j < k ==> !DiedAfterStart(poll(j), serial);
      }
    } else if from < StartPolls && IsRunning(poll(from)) {
      assert IsRunning(poll(from));
    } else if from < StartPolls {
      // poll(from) shows the daemon dead, so no later running poll can be the first decision
      assert DiedAfterStart(poll(from), serial);
    }
  }

  /**
   * `wifi_start_hostapd` returns 0 exactly when hostapd already ran, or a
   * poll among the first 300 sees it running before any poll sees it die.
   */
  lemma StartHostapdIff(before: Prop, captured: Prop, poll: nat -> Prop)
    ensures StartSpec(before, captured, poll) == 0 <==>
      IsRunning(before) ||
      exists k :: 0 <= k < StartPolls && IsRunning(poll(k)) &&
        forall j :: 0 <= j < k ==> !DiedAfterStart(poll(j), SerialOf(captured))
  {
    StartPollFromIff(poll, SerialOf(captured), 0);
  }

  /** Only the first 300 polls matter: two property histories that agree on them give the same result. */
  lemma {:induction false} StartPollsBounded(poll1: nat -> Prop, poll2: nat -> Prop, serial: nat, from: nat)
    requires forall k :: from <= k < StartPolls ==> poll1(k) == poll2(k)
    decreases StartPolls - from
    ensures StartPollFrom(poll1, serial, from) == StartPollFrom(poll2, serial, from)
  {
    if from < StartPolls {
      StartPollsBounded(poll1, poll2, serial, from + 1);
    }
  }

  /** The stop polls from poll k on: 0 at the first "stopped", -1 when the polls run out. */
  function StopPollFrom(poll: nat -> Prop, k: nat): (r: int)
    decreases StopPolls - k
    ensures r == 0 || r == -1
  {
    if k >= StopPolls then -1
    else if IsStopped(poll(k)) then 0
    else StopPollFrom(poll, k + 1)
  }

  /** `wifi_stop_hostapd`'s result: 0 at once when `before` says stopped, otherwise the polls decide. */
  function StopSpec(before: Prop, poll: nat -> Prop): (r: int)
    ensures IsStopped(before) ==> r == 0
    ensures r == 0 || r == -1
  {
    if IsStopped(before) then 0 else StopPollFrom(poll, 0)
  }

  /** `wifi_stop_hostapd`. `requested` says whether `ctl.stop` was set. */
  method StopHostapd(before: Prop, poll: nat -> Prop) returns (r: int, requested: bool)
    ensures r == StopSpec(before, poll)
    ensures requested <==> !IsStopped(before)
  {
    if IsStopped(before) {
      return 0, false;
    }
    requested := true;
    var count := StopPolls;
    var k := 0;
    while count > 0
      invariant 0 <= count <= StopPolls && k == StopPolls - count
      invariant StopPollFrom(poll, k) == StopPollFrom(poll, 0)
    {
      count := count - 1;
      var p := poll(k);
      if p.Present? && p.value == "stopped" {
        return 0, true;
      }
      k := k + 1;
    }
    r := -1;
  }

  /** From poll `from` on, the stop succeeds exactly when one of the first 50 polls sees "stopped". */
  lemma {:induction false} StopPollFromIff(poll: nat -> Prop, from: nat)
    decreases StopPolls - from
    ensures StopPollFrom(poll, from) == 0 <==> exists k :: from <= k < StopPolls && IsStopped(poll(k))
  {
    if from < StopPolls && !IsStopped(poll(from)) {
      StopPollFromIff(poll, from + 1);
      if exists k :: from <= k < StopPolls && IsStopped(poll(k)) {
        var k :| from <= k < StopPolls && IsStopped(poll(k));
        assert from + 1 <= k;
      }
    }
  }

  /** `wifi_stop_hostapd` returns 0 exactly when hostapd was already stopped or one of the first 50 polls sees it stopped. */
  lemma StopHostapdIff(before: Prop, poll: nat -> Prop)
    ensures StopSpec(before, poll) == 0 <==>
      IsStopped(before) || exists k :: 0 <= k < StopPolls && IsStopped(poll(k))
  {
    StopPollFromIff(poll, 0);
  }

  /** `cnt` in the wait for the control socket file: 160 waits of 50 ms. */
  const IfaceWaits := 160

  /** The index of the `access` call that ends the wait loop: the first success, or 160 when the waits run out. */
  function WaitEnd(access: nat -> bool, k: nat): (m: nat)
    decreases IfaceWaits - k
    ensures m <= IfaceWaits || m == k
    ensures k <= IfaceWaits ==> k <= m <= IfaceWaits
    ensures k <= IfaceWaits && m < IfaceWaits ==> access(m)
    ensures forall j :: k <= j < m ==> !access(j)
  {
    if k >= IfaceWaits || access(k) then k else WaitEnd(access, k + 1)
  }

  /**
   * The wait for /data/misc/wifi/hostapd/athap0 in `wifi_connect_to_hostapd`:
   * `access` is tried until it succeeds or the waits run out, then once more
   * to decide. `access(k)` is the result of the k-th call.
   */
  method WaitForIfaceFile(access: nat -> bool) returns (ready: bool, calls: nat)
    ensures calls == WaitEnd(access, 0) + 2
    ensures ready == access(WaitEnd(access, 0) + 1)
  {
    var cnt := IfaceWaits;
    var k := 0;
    while true
      invariant 0 <= cnt <= IfaceWaits && k == IfaceWaits - cnt
      invariant WaitEnd(access, k) == WaitEnd(access, 0)
      decreases cnt
    {
      if access(k) {
        break;
      }
      if cnt == 0 {
        break;
      }
      cnt := cnt - 1;
      k := k + 1;
    }
    ready := access(k + 1);
    calls := k + 2;
  }

  /**
   * Once the socket file exists it stays: then the wait ends ready exactly
   * when the file is there by the deciding call, the 162nd.
   */
  lemma WaitReadyIff(access: nat -> bool)
    requires forall i, j :: 0 <= i <= j && access(i) ==> access(j)
    ensures access(WaitEnd(access, 0) + 1) <==> access(IfaceWaits + 1)
  {
    var m := WaitEnd(access, 0);
    if m < IfaceWaits {
      assert access(m);
      assert access(m + 1);
    }
  }

  /**
   * The path `wpa_ctrl_open` is given for the AP interface: the socket file in
   * IFACE_DIR when it is ready, the bare interface name otherwise.
   */
  function CtrlPath(ready: bool): string {
    if ready then HostapdConf.CtrlInterfaceDir + "/" + Radio.ApIfname else Radio.ApIfname
  }

  /** A `struct wpa_ctrl *` handle. */
  type Handle = nat

  /** `connretry` starts at 15 and is pre-decremented: at most 14 open attempts, 100 ms apart. */
  const OpenAttempts := 14

  /** The first successful open from attempt k on, with the number of attempts made up to it. */
  function OpenFrom(open: (string, nat) -> Option<Handle>, path: string, k: nat): (r: (Option<Handle>, nat))
    decreases OpenAttempts - k
    ensures r.1 <= OpenAttempts || r.1 == k
  {
    if k >= OpenAttempts then (None, k)
    else if open(path, k).Some? then (open(path, k), k + 1)
    else OpenFrom(open, path, k + 1)
  }

  /**
   * The `wpa_ctrl_open` retry loop: attempts are made until one returns a
   * handle, at most 14 of them.
   */
  method OpenWithRetry(open: (string, nat) -> Option<Handle>, path: string) returns (conn: Option<Handle>, attempts: nat)
    ensures 1 <= attempts <= OpenAttempts
    ensures conn.Some? ==> conn == open(path, attempts - 1)
    ensures conn.None? ==> attempts == OpenAttempts
    ensures forall j :: 0 <= j < attempts - 1 ==> open(path, j).None?
    ensures conn.None? ==> forall j :: 0 <= j < OpenAttempts ==> open(path, j).None?
    ensures (conn, attempts) == OpenFrom(open, path, 0)
  {
    var connretry := 15;
    conn := None;
    attempts := 0;
    while true
      invariant 1 <= connretry <= 15 && attempts == 15 - connretry
      invariant conn.None?
      invariant forall j :: 0 <= j < attempts ==> open(path, j).None?
      invariant OpenFrom(open, path, attempts) == OpenFrom(open, path, 0)
      decreases connretry
    {
      connretry := connretry - 1;
      if connretry == 0 {
        break;
      }
      conn := open(path, attempts);
      attempts := attempts + 1;
      if conn.Some? {
        break;
      }
    }
  }

  /** The handle the open attempts return on the path the wait for the socket file chose, if any. */
  function FirstHandle(access: nat -> bool, open: (string, nat) -> Option<Handle>): Option<Handle> {
    OpenFrom(open, CtrlPath(access(WaitEnd(access, 0) + 1)), 0).0
  }

  /**
   * The first half of `wifi_connect_to_hostapd`: wait for the control socket
   * file, then open it with retries; the result is the first handle opened.
   */
  method WaitAndOpen(access: nat -> bool, open: (string, nat) -> Option<Handle>) returns (conn: Option<Handle>)
    ensures conn == FirstHandle(access, open)
  {
    var ready, _ := WaitForIfaceFile(access);
    var attempts;
    conn, attempts := OpenWithRetry(open, CtrlPath(ready));
  }

  /**
   * The handle `wifi_connect_to_hostapd` leaves in `ctrl_conn` when hostapd
   * is running: the first handle opened, provided attaching to it succeeds;
   * None otherwise.
   */
  function ConnectSpec(status: Prop, access: nat -> bool, open: (string, nat) -> Option<Handle>, attachOk: bool): (h: Option<Handle>)
    ensures !IsRunning(status) || !attachOk ==> h.None?
    ensures h.Some? ==> h == FirstHandle(access, open)
  {
    if IsRunning(status) && attachOk then FirstHandle(access, open) else None
  }

  /** A handle the connect keeps came from one of the first 14 open attempts, every earlier one having failed. */
  lemma ConnectHandleFound(status: Prop, access: nat -> bool, open: (string, nat) -> Option<Handle>, attachOk: bool)
    ensures var h := ConnectSpec(status, access, open, attachOk);
      var path := CtrlPath(access(WaitEnd(access, 0) + 1));
      var n := OpenFrom(open, path, 0).1;
      h.Some? ==> 1 <= n <= OpenAttempts && h == open(path, n - 1)
  {
    OpenFromFound(open, CtrlPath(access(WaitEnd(access, 0) + 1)), 0);
  }

  /** A handle the retry loop returns came from one of the first 14 attempts. */
  lemma {:induction false} OpenFromFound(open: (string, nat) -> Option<Handle>, path: string, k: nat)
    decreases OpenAttempts - k
    ensures OpenFrom(open, path, k).0.Some? ==>
      k < OpenFrom(open, path, k).1 <= OpenAttempts &&
      OpenFrom(open, path, k).0 == open(path, OpenFrom(open, path, k).1 - 1)
  {
    if k < OpenAttempts && open(path, k).None? {
      OpenFromFound(open, path, k + 1);
    }
  }
}
