# SoftAP controllers of netd, modelled in Dafny

This project models the two SoftAP (Wi-Fi hotspot) controllers of Android's
network daemon `netd`:

- `SoftapController.cpp` is the generic controller. It renders
  `/data/misc/wifi/hostapd.conf` from a `softap set` command line. The PSK
  there is PBKDF2 output printed as 64 hexadecimal digits. It answers
  `softap fwreload` by switching the firmware path. It starts and stops
  hostapd by forking a child and killing it.
- `SoftapControllerATH.cpp` is the Atheros (ar6000) controller. It renders
  its own configuration, which carries the passphrase itself. It switches
  the driver into AP mode by powering the WLAN rfkill switch off and
  renaming the interface through `/sys/module/ar6000/parameters/ifname`. It
  then has init start hostapd, polls the `init.svc.hostapd` property until
  hostapd runs, and opens and attaches hostapd's control socket. Stopping
  undoes all of this.

Module by module:

| module | models |
|---|---|
| `CStrings` (`cstrings.dfy`) | `atoi`, `%d` and `strcasecmp` of the C library, as the command parsing uses them |
| `HostapdConf` (`config_text.dfy`) | the `key=value` lines both renderers emit, and the reading a consumer makes of them (`Parse`) |
| `Psk` (`psk.dfy`) | `generatePsk`: the key derivation is a parameter, and the `%02x` loop fills a caller's array |
| `ConfigFile` (`config_file.dfy`) | the open / write / fchmod / fchown / unlink sequence both `setSoftap` variants end with |
| `Lifecycle` (`lifecycle.dfy`) | a caller's history of completed start and stop calls, and whether the AP counts as started after it |
| `Softap` (`softap.dfy`) | the generic controller: configuration text, `fwReloadSoftap`, and a class holding `mPid` |
| `Radio` (`radio.dfy`) | `init_rfkill`, `check_wifi_power`, `set_wifi_power` and the rename branch of `startDriver`/`stopDriver`, as functions over a value that holds the sysfs files |
| `Hostapd` (`hostapd.dfy`) | `wifi_start_hostapd`, `wifi_stop_hostapd` and the two bounded loops of `wifi_connect_to_hostapd` |
| `DriverModule` (`driver_module.dfy`) | the `rmmod` retry loop |
| `SoftapAth` (`softap_ath.dfy`) | the Atheros controller: configuration text, and a class holding `mPid`, `ctrl_conn`, `rfkill_id`, `mProfileValid`, the sysfs files and the wake lock |

Everything the controllers learn from outside is an input to the model:

- the property value and serial seen at each poll;
- each `access()` of the control socket file;
- each `wpa_ctrl_open` attempt;
- the outcome of each system call;
- the contents and permissions of the sysfs files;
- a byte that was never initialised.

Every loop is therefore a bounded scan with an exact result. Each looping
method is proved equal to a recursive specification function, and the
lemmas state what that function means.

Some of this C code has no defined outcome. `setSoftap` reads `argv[5]` when
`argc == 5`. `atoi` of a channel argument whose value does not fit in an
`int` is undefined in C. With an unknown security token, `setSoftap` passes
a NULL buffer to `strlen`. The model returns an explicit `UndefinedBehaviour`
outcome for these cases and does not invent an error code.

## Model

| member | source | states |
|---|---|---|
| CStrings.AtoiDecimal | SoftapController.cpp:137-150 | a channel printed with `%d` is read back by `atoi` as the same number |
| CStrings.Atoi | SoftapController.cpp:138 | a string with no sign or digit after its leading white space is 0; a negative value needs a '-' there |
| CStrings.Decimal | SoftapController.cpp:143-150 | `%d` prints only decimal digits, at least one, and a leading '0' only for the number 0 |
| CStrings.EqualIgnoringCaseIff | SoftapController.cpp:134-135 | `strcasecmp` finds two strings equal exactly when their lower-case forms are equal |
| HostapdConf.RenderAppend | SoftapController.cpp:155-158 | printing the base block with `%s` in front of the security lines renders the concatenation of the two entry lists |
| HostapdConf.ParseRender | SoftapController.cpp:143-168 | a reader that splits the text at newlines and then at the first `=` recovers exactly the entries written, provided no key holds `=` or a newline and no value holds a newline |
| Psk.HexDigit | SoftapController.cpp:250 | the `%x` digit of a nibble is a lower-case hexadecimal character |
| Psk.HexEncode | SoftapController.cpp:249-251 | the printed key has two lower-case hexadecimal characters per byte |
| Psk.HexEncodeAt | SoftapController.cpp:249-251 | the encoding is twice as long as the key; characters 2j and 2j+1 are the high and low nibble digits of byte j |
| Psk.HexRoundTrip | SoftapController.cpp:249-251 | decoding the printed digits gives back the key bytes, so the printing loses nothing |
| Psk.PskString | SoftapController.cpp:242-252 | the `wpa_psk` value is 64 lower-case hexadecimal characters |
| Psk.GeneratePsk | SoftapController.cpp:242-252 | after the loop the buffer holds the hex encoding of the derived key, followed by the terminating NUL the last `sprintf` writes |
| ConfigFile.WriteConfig | SoftapController.cpp:170-202 | a failed open returns OperationFailed and leaves the file untouched; a NULL buffer is undefined; otherwise success holds exactly when write, fchmod and fchown all succeed, and every other result is OperationFailed; a failed fchmod or fchown removes the file; otherwise the file holds the text, or nothing when the write failed |
| Lifecycle.StartedAfterSnoc | SoftapController.cpp:58-103 | a successful start starts the AP; a stop stops it; a failed start leaves it as it was |
| Lifecycle.StartedAfterIff | SoftapController.cpp:105-107 | the AP counts as started exactly when some start succeeded and no stop completed after it |
| Softap.Channel | SoftapController.cpp:137-141 | the channel is `atoi(argv[5])` when that is positive, and `AP_CHANNEL_DEFAULT` otherwise; for an `atoi` value that fits in an `int` the channel does too |
| Softap.ChannelExamples | SoftapController.cpp:137-141 | "11" selects channel 11; "0" and "abc" select the default |
| Softap.Hidden | SoftapController.cpp:134-135 | `hidden` is at most 1, and is 1 exactly when `argv[4]` is "hidden" in any letter case |
| Softap.BaseEntries | SoftapController.cpp:143-150 | the base block has the eight lines of the format string (their contents: BaseFields) |
| Softap.BaseFields | SoftapController.cpp:143-150 | the base block carries `argv[2]` as the interface and `argv[3]` as the SSID; its channel value reads back as the chosen channel; `ignore_broadcast_ssid` is "1" exactly for a hidden SSID |
| Softap.SecurityEntries | SoftapController.cpp:152-168 | no block exactly when a 7th argument is not "open", or a token with a key is none of the three known ones; an empty block exactly for 6 arguments or "open"; a non-empty block ends with the `wpa_psk` derived from SSID and passphrase |
| Softap.ConfigText | SoftapController.cpp:143-168 | the buffer is NULL exactly when there is no security block; otherwise the text starts with the rendered base block |
| Softap.SecuritySuffix | SoftapController.cpp:143-168 | every produced file is the rendered base block followed by the rendered security block, so the base block is a prefix |
| Softap.WpaBlock | SoftapController.cpp:152-155 | with more than 7 arguments, "wpa-psk" appends `wpa=1`, `wpa_pairwise=TKIP CCMP` and `wpa_psk=<hex key>` |
| Softap.Wpa2Block | SoftapController.cpp:156-158 | with more than 7 arguments, "wpa2-psk" appends `wpa=2`, `rsn_pairwise=CCMP` and `wpa_psk=<hex key>` |
| Softap.OpenIsBaseOnly | SoftapController.cpp:159-168 | "open", or exactly 6 arguments, gives the base block alone |
| Softap.NullConfigIff | SoftapController.cpp:152-168 | the buffer stays NULL exactly when a 7th argument is not "open", or a security token with a key is none of the three known ones |
| Softap.ReaderSeesConfig | SoftapController.cpp:143-168 | when the interface and SSID hold no newline, a reader of the file finds the base entries followed by the security entries |
| Softap.SetSoftap | SoftapController.cpp:128-202 | fewer than 5 arguments give CommandSyntaxError and touch no file; exactly 5 is undefined, and so is a channel argument whose `atoi` value does not fit in an `int`; otherwise the outcome is that of writing the rendered text |
| Softap.FwModeOf | SoftapController.cpp:223-229 | the firmware mode is selected by exact match on "AP", "P2P" or "STA" |
| Softap.FwReloadSoftap | SoftapController.cpp:210-240 | fewer than 4 arguments give CommandSyntaxError; an unknown mode or a missing path gives CommandParameterError; a failed path change gives OperationFailed; otherwise SoftapStatusResult, with the path changed to the mode's path |
| Softap.SoftapController.constructor | SoftapController.cpp:52-53 | a new controller has no AP running |
| Softap.SoftapController.IsSoftapStarted | SoftapController.cpp:105-107 | `mPid != 0` holds exactly when the call history leaves the AP started |
| Softap.SoftapController.StartSoftap | SoftapController.cpp:58-86 | with an AP running: SoftapStatusResult, no fork and no change; otherwise one fork, with success and `mPid` equal to the child's pid exactly when the fork returned a positive pid |
| Softap.SoftapController.StopSoftap | SoftapController.cpp:88-103 | always SoftapStatusResult and `mPid == 0` afterwards; a running child is killed and reaped, and nothing is done when none runs |
| Radio.Scan | SoftapControllerATH.cpp:89-102 | the switch found has a WLAN type, and every switch before it has a readable type that is not WLAN |
| Radio.ScanLowest | SoftapControllerATH.cpp:89-102 | the scan finds switch i exactly when i is the lowest index whose type starts with "wlan" and every earlier type file opened |
| Radio.DecodePower | SoftapControllerATH.cpp:131-138 | byte '1' reads as 1 and byte '0' as 0; any other byte reads as -1 |
| Radio.CheckPower | SoftapControllerATH.cpp:108-143 | 1 or 0 exactly when a WLAN switch is known and its state file reads '1' or '0'; -1 when no switch is found or the open or read fails |
| Radio.WithState | SoftapControllerATH.cpp:161-172 | writing a state file changes that file's content and nothing else |
| Radio.SetPower | SoftapControllerATH.cpp:145-178 | with no switch found: -1 and no change; when the reading already equals the request: 0 and no write; otherwise 0 exactly when the state file is writable, and then the state byte is written and nothing else changes; -1 writes nothing |
| Radio.SetPowerReadsBack | SoftapControllerATH.cpp:145-178 | after a successful `set_wifi_power(on)` on a readable switch, `check_wifi_power` reports `on` |
| Radio.SetPowerIdempotent | SoftapControllerATH.cpp:155-157 | a second `set_wifi_power(on)` returns the same result and changes nothing |
| Radio.RenameResult | SoftapControllerATH.cpp:476-492 | the name is kept when the first byte (the stale one if the read failed) is the mode's initial; it is written when the parameter opened writable; the rename fails otherwise |
| Radio.RenamedParam | SoftapControllerATH.cpp:482 | the parameter takes the new name exactly when the rename happened |
| Radio.StartDriverSpec | SoftapControllerATH.cpp:448-512 | `startDriver` returns 0 or -1 and keeps the rfkill id valid |
| Radio.StartDriverDecision | SoftapControllerATH.cpp:472-507 | `startDriver` succeeds exactly when the configuration file exists, and the interface is already named for AP or the rename worked and powering on succeeded |
| Radio.AlreadyApLeavesPowerOff | SoftapControllerATH.cpp:472-489 | an interface already named for AP leaves the radio as the initial power-off left it |
| Radio.StartDriverRenames | SoftapControllerATH.cpp:482-485 | a writable interface not named for AP is renamed "athap0" |
| Radio.StopDriverSpec | SoftapControllerATH.cpp:514-562 | `stopDriver` returns 0, -1 or -2 and keeps the rfkill id valid |
| Radio.StopDriverDecision | SoftapControllerATH.cpp:530-561 | a failed power-off is returned as is; after a power-off, an interface already named for station mode gives 0 with no write, a written rename gives 0 with "wlan0" in the parameter, and a rename that cannot be written gives -2 |
| Radio.StopDriverRestoresStaName | SoftapControllerATH.cpp:534-555 | from the AP name, `stopDriver` succeeds exactly when powering off does, and the interface is then named "wlan0" |
| Radio.StartStopRoundTrip | SoftapControllerATH.cpp:448-562 | a rename into AP mode followed by a successful `stopDriver` leaves the interface named "wlan0" |
| Hostapd.StartSpec | SoftapControllerATH.cpp:232-285 | `wifi_start_hostapd` returns 0 or -1, and 0 when hostapd already runs |
| Hostapd.StartHostapd | SoftapControllerATH.cpp:232-285 | the polling loop returns what the specification says; `ctl.start` is requested exactly when hostapd was not already running |
| Hostapd.StartPollFrom | SoftapControllerATH.cpp:267-283 | the polls from k on return 0 or -1; StartPollFromIff gives the exact condition |
| Hostapd.StartPollFromIff | SoftapControllerATH.cpp:267-283 | from poll k, 0 is returned exactly when some later poll among the 300 sees "running" before any poll sees hostapd die |
| Hostapd.StartHostapdIff | SoftapControllerATH.cpp:232-285 | success exactly when hostapd already ran, or some poll sees "running" with no earlier poll seeing "stopped" under a serial other than the captured one |
| Hostapd.StartPollsBounded | SoftapControllerATH.cpp:235-283 | polls after the 300th do not affect the result |
| Hostapd.StopSpec | SoftapControllerATH.cpp:287-309 | `wifi_stop_hostapd` returns 0 or -1, and 0 when hostapd is already stopped |
| Hostapd.StopHostapd | SoftapControllerATH.cpp:287-309 | the polling loop returns what the specification says; `ctl.stop` is requested exactly when hostapd was not already stopped |
| Hostapd.StopPollFrom | SoftapControllerATH.cpp:301-307 | the polls from k on return 0 or -1; StopPollFromIff gives the exact condition |
| Hostapd.StopPollFromIff | SoftapControllerATH.cpp:301-307 | from poll k, 0 is returned exactly when some later poll among the 50 sees "stopped" |
| Hostapd.StopHostapdIff | SoftapControllerATH.cpp:287-309 | success exactly when hostapd was already stopped, or one of the 50 polls sees it stopped |
| Hostapd.WaitEnd | SoftapControllerATH.cpp:329-333 | the wait ends at the first access that succeeds, or after the 161st failure; every access before the end failed |
| Hostapd.WaitForIfaceFile | SoftapControllerATH.cpp:328-341 | the socket path is the directory path exactly when the access after the wait succeeds |
| Hostapd.WaitReadyIff | SoftapControllerATH.cpp:328-341 | once the file, appearing, stays in place, the directory path is chosen exactly when the file exists by the last access |
| Hostapd.OpenFrom | SoftapControllerATH.cpp:343-345 | the attempts from k on stop within the 14, or at once when k is already past them |
| Hostapd.OpenWithRetry | SoftapControllerATH.cpp:343-350 | between 1 and 14 attempts; the handle returned is the first successful one; every earlier attempt failed; without a handle all 14 failed |
| Hostapd.OpenFromFound | SoftapControllerATH.cpp:343-345 | a handle found from attempt k on comes from an attempt at or after k and before the 14th |
| Hostapd.WaitAndOpen | SoftapControllerATH.cpp:324-350 | the handle obtained is the first one opened on the path the wait chose |
| Hostapd.ConnectSpec | SoftapControllerATH.cpp:311-359 | no handle is kept unless hostapd is running and the attach succeeds; a kept handle is the first one opened |
| Hostapd.ConnectHandleFound | SoftapControllerATH.cpp:343-359 | a kept handle came from one of the first 14 open attempts |
| DriverModule.RmmodFrom | SoftapControllerATH.cpp:396-413 | at least one and at most 10 attempts are made |
| DriverModule.Rmmod | SoftapControllerATH.cpp:396-413 | the result is the last attempt's; every earlier attempt failed with EAGAIN; stopping before the 10th attempt means the last attempt was not busy |
| DriverModule.RmmodFromIff | SoftapControllerATH.cpp:401-407 | `rmmod` succeeds exactly when some attempt among the first 10 returns 0 and every earlier one was busy |
| SoftapAth.AthBaseEntries | SoftapControllerATH.cpp:731-735 | the base block has the eight lines of the format string (their contents: AthInterfaceFirst, AthChannelReadsBack) |
| SoftapAth.AthSecurityEntries | SoftapControllerATH.cpp:737-749 | no block exactly when a 7th argument is not "open", or a token with a key is neither "wpa2-psk" nor "open"; an empty block exactly for 6 arguments or "open"; a non-empty block ends with the passphrase verbatim |
| SoftapAth.AthConfigText | SoftapControllerATH.cpp:731-749 | the buffer is NULL exactly when there is no security block; otherwise the text starts with the rendered base block |
| SoftapAth.AthInterfaceFirst | SoftapControllerATH.cpp:731-735 | every produced file starts with `interface=athap0` |
| SoftapAth.AthIgnoresIfaceAndHidden | SoftapControllerATH.cpp:718-735 | the text does not depend on `argv[2]` or `argv[4]` |
| SoftapAth.AthChannelReadsBack | SoftapControllerATH.cpp:725-735 | `channel_num` reads back as `atoi(argv[5])` when positive, and as the default otherwise |
| SoftapAth.AthWpa2Block | SoftapControllerATH.cpp:737-739 | with more than 7 arguments, "wpa2-psk" appends `wpa=2`, `wpa_key_mgmt=WPA-PSK`, `wpa_pairwise=CCMP` and `wpa_passphrase=<argv[7]>` |
| SoftapAth.AthOpenIsBaseOnly | SoftapControllerATH.cpp:740-749 | "open", or exactly 6 arguments, gives the base block alone |
| SoftapAth.AthNullConfigIff | SoftapControllerATH.cpp:737-749 | the buffer stays NULL exactly when a 7th argument is not "open", or a token with a key is neither "wpa2-psk" nor "open" |
| SoftapAth.AthReaderSeesConfig | SoftapControllerATH.cpp:731-749 | a reader finds the base entries followed by the security entries; for WPA2, entry 11 is the passphrase verbatim |
| SoftapAth.WifiLoadProfile | SoftapControllerATH.cpp:369-377 | -1 exactly when the AP is started, the profile is valid and there is no connection; 0 otherwise |
| SoftapAth.LoadProfileNeverFails | SoftapControllerATH.cpp:369-377 | with `mProfileValid` at 0, its only value, loading the profile always returns 0 |
| SoftapAth.AfterLoad | SoftapControllerATH.cpp:782-796 | once the file is written and closed, the result is that of loading the profile, whatever the write returned |
| SoftapAth.AfterLoadChecked | SoftapControllerATH.cpp:782-796 | success only when both the write sequence and the profile load succeeded |
| SoftapAth.FwReloadSoftap | SoftapControllerATH.cpp:804-818 | CommandSyntaxError exactly when fewer than 4 arguments; SoftapStatusResult otherwise |
| SoftapAth.ConnectLog | SoftapControllerATH.cpp:343-356 | nothing is opened without a handle; an opened handle is closed again when the attach fails |
| SoftapAth.LaunchSpec | SoftapControllerATH.cpp:576-609 | the start attempt succeeds exactly when a connection is kept, and then the only connection event is its open; `ctl.start` is requested unless hostapd already ran; nothing is opened unless hostapd runs at connect time |
| SoftapAth.LaunchOutcome | SoftapControllerATH.cpp:576-609 | success exactly when hostapd started, was running at connect time, a socket opened and the attach worked; the driver stays started when hostapd started, and is stopped again when it did not |
| SoftapAth.SoftapController.constructor | SoftapControllerATH.cpp:415-420 | no AP, no connection, `mProfileValid` 0, no wake lock; `rfkill_id` holds -1, the value its file-scope initialiser gives it |
| SoftapAth.SoftapController.IsSoftapStarted | SoftapControllerATH.cpp:689-691 | started exactly when the call history leaves the AP started, and exactly when a control connection is held |
| SoftapAth.SoftapController.InitRfkill | SoftapControllerATH.cpp:83-106 | finds the lowest WLAN switch and caches it; on failure returns -1 and leaves `rfkill_id` as it was |
| SoftapAth.SoftapController.CheckWifiPower | SoftapControllerATH.cpp:108-143 | returns the reading the specification gives, and caches the switch found |
| SoftapAth.SoftapController.SetWifiPower | SoftapControllerATH.cpp:145-178 | result, cached id and files are as the specification gives |
| SoftapAth.SoftapController.RenameInterface | SoftapControllerATH.cpp:476-493 | the outcome of the rename block; only the ifname parameter changes |
| SoftapAth.SoftapController.StartDriver | SoftapControllerATH.cpp:448-512 | result and new radio state are those of the start specification |
| SoftapAth.SoftapController.StopDriver | SoftapControllerATH.cpp:514-562 | result and new radio state are those of the stop specification |
| SoftapAth.SoftapController.ConnectToHostapd | SoftapControllerATH.cpp:311-359 | -1 and no change unless hostapd is running; otherwise the connection kept is the specification's, opened handles are logged, and a failed attach closes its handle |
| SoftapAth.SoftapController.CloseHostapdConnection | SoftapControllerATH.cpp:361-367 | no connection afterwards; a held one is closed, and a second call does nothing |
| SoftapAth.SoftapController.LaunchHostapd | SoftapControllerATH.cpp:591-609 | success exactly when hostapd started and a connection was kept; a failed start stops the driver; a failed connect leaves hostapd and the driver as they are; the connection events are those of the connect, none when hostapd did not start or is not running |
| SoftapAth.SoftapController.BringUp | SoftapControllerATH.cpp:576-609 | the driver start, whose result is ignored, followed by the launch has exactly the effect the launch specification gives, connection events included |
| SoftapAth.SoftapController.StartStopped | SoftapControllerATH.cpp:576-638 | SoftapStatusResult exactly when the launch succeeds, with radio, connection, connection events and init requests as the launch specification gives; the history records the outcome |
| SoftapAth.SoftapController.MarkStarted | SoftapControllerATH.cpp:613-632 | loading the profile succeeds, the AP is recorded as running and the wake lock is held |
| SoftapAth.SoftapController.MarkFailed | SoftapControllerATH.cpp:591-606 | a failed start leaves the AP stopped and returns ServiceStartFailed |
| SoftapAth.SoftapController.StartSoftap | SoftapControllerATH.cpp:564-638 | with an AP running: SoftapStatusResult and no change; otherwise SoftapStatusResult exactly when the launch succeeds, with radio, connection, connection events and init requests as specified; the AP is marked started and the wake lock held only then |
| SoftapAth.SoftapController.TearDown | SoftapControllerATH.cpp:646-684 | closes the connection; stops hostapd, requesting `ctl.stop` unless it was already stopped; powers off; renames to "wlan0"; every result is ignored |
| SoftapAth.SoftapController.StopSoftap | SoftapControllerATH.cpp:640-687 | always SoftapStatusResult, with `mPid` 0, no connection and the wake lock released; nothing else changes when no AP ran |
| SoftapAth.SoftapController.SetSoftap | SoftapControllerATH.cpp:702-797 | fewer than 5 arguments give CommandSyntaxError; exactly 5 is undefined, and so is a channel whose `atoi` value does not fit in an `int`; with a text and a successful open, success holds exactly when fchmod and fchown succeed, even when the write failed |
| SoftapAth.SoftapController.SetSoftapChecked | SoftapControllerATH.cpp:702-797 | as above, but success also requires the write, and then the file holds the text |
| SoftapAth.WriteFailureMasked | SoftapControllerATH.cpp:758-796 | a failed write with 6 arguments, whose channel fits in an `int`, reports SoftapStatusResult over an empty file as written; the corrected version reports OperationFailed |

## Left out

- Process control is not modelled. `fork`, `execl`, `kill`, `waitpid` and `ensure_entropy_file_exists` appear only as a fork result and a log of process events. In the generic `startSoftap` the child process (fork returned 0) reports ServiceStartFailed.
- The key derivation `PKCS5_PBKDF2_HMAC_SHA1` (PKCS #5 v2.0, RFC 2898 section 5.2, 4096 iterations) is a function parameter. It returns 32 bytes and is not computed.
- `AP_CHANNEL_DEFAULT` is defined in SoftapController.h, which is not part of this model. It is taken as 6. The proofs use only that it is positive.
- Build options are fixed:
  - `HAVE_LEGACY_HOSTAPD` is undefined, so the `ieee80211n=1` line is present.
  - `HOSTAPD_DRIVER_NAME` is "nl80211".
  - `WLAN_NO_FWRELOAD` is undefined.
  - `HAVE_LIBC_SYSTEM_PROPERTIES` is defined.
  - `WIFI_MODULE_PATH` is undefined (the rename branch).
- The insmod half of the `WIFI_MODULE_PATH` branch is left out: `load_file`, `init_module` and the calls in `startDriver`/`stopDriver`. Only the `rmmod` retry loop is modelled.
- `ensure_config_file_exists` is left out. Its template copy is file I/O; the model takes its success as a boolean.
- These calls are also left out: `wpa_ctrl_cleanup`, `ifc_init`, `ifc_up`, every `sleep`, `usleep` and `sched_yield`, and all logging.
- The `#if 0` blocks are dead code and are left out.
- `wpa_ctrl_open` and `wpa_ctrl_attach` are oracles; a handle is a number.
- The property service is an oracle that gives a value and a serial at each poll. A poll that finds no property decides nothing.
- The serial captured before `ctl.start` is 0 when the property does not exist yet. When the property appears later, the C code keeps that 0, and so does the model.
- Sysfs is a value held by the controller. A successful write to a state file makes it read back as the byte written; a rename makes the parameter read back as the new name. What the kernel does beyond that (the radio itself, a rename failing after the write) is not modelled.
- CStrings.Atoi: computes the value of the digits without bound and says nothing about values outside an `int`; C leaves those undefined, and both `setSoftap` models return `UndefinedBehaviour(ChannelOverflow)` for them instead of a wrapped channel.
- Softap.Channel: is stated for every `atoi` value, including ones outside an `int`; it is only used once `setSoftap` has ruled those out.
- The file-scope statics `rfkill_id` (SoftapControllerATH.cpp:80) and `ctrl_conn` are fields of the single Atheros controller. The constructor sets `ctrl_conn` but never resets `rfkill_id`; the model starts it at -1, its static initial value. Sharing of these statics between two controller objects is not modelled.
- `rfkill_state_path` is not kept. It is determined by the cached `rfkill_id`, which is kept.
- The global `iface` buffer set in `wifi_connect_to_hostapd` is not kept; nothing else reads it. The `iface` argument of `startDriver`/`stopDriver` is only logged or replaced and is not modelled.
- `acquire_wake_lock` and `release_wake_lock` become a boolean field.
- The firmware path functions `wifi_get_fw_path` and `wifi_change_fw_path` are parameters of `Softap.FwReloadSoftap`.
- In ATH `startSoftap` the profile-load failure branch (SoftapControllerATH.cpp:613-620) cannot be reached, because `mProfileValid` is always 0. The method asserts this instead of modelling the branch.

## Findings

| source | as written | input that shows it | evidently intended | confidence | as-written member | corrected member |
|---|---|---|---|---|---|---|
| SoftapControllerATH.cpp:758-796 | a failed `write` sets `ret` to OperationFailed, but `ret` is then overwritten by the result of `wifi_load_profile`, which is always 0 | 6 arguments; open, fchmod and fchown succeed and write fails | a failed write is reported as OperationFailed, as the generic controller does at SoftapController.cpp:177-180 | not executed | SoftapAth.SoftapController.SetSoftap, SoftapAth.WriteFailureMasked | SoftapAth.SoftapController.SetSoftapChecked |
