/**
 * Writing the rendered configuration to /data/misc/wifi/hostapd.conf, the
 * tail that both `setSoftap` variants share: open with truncation, write the
 * whole text, fix the mode (`fchmod`) and the owner (`fchown`), removing the
 * file again when either of the last two fails.
 */
module ConfigFile {
  import opened Wrappers
  import opened ResponseCodes

  /** What each system call does when it is made: true for success. */
  datatype FileIo = FileIo(openOk: bool, writeOk: bool, chmodOk: bool, chownOk: bool)

  /** The configuration file after the attempt. */
  datatype FileState =
    | Untouched              // open failed: the previous file is as it was
    | Written(text: string)  // the file holds `text` (empty when the write failed after truncation)
    | Removed                // unlinked after a failed fchmod or fchown

  /** Why a call has no defined outcome in C. */
  datatype Undefined = ChannelPastEnd | ChannelOverflow | NullConfigText

  datatype SetOutcome =
    | Finished(code: ResponseCode, file: FileState)
    | UndefinedBehaviour(why: Undefined)

  /**
   * The write sequence applied to `fbuf`, which is None when no security
   * block matched and the C buffer stayed NULL. `code` is what the function
   * would return after closing the file: OperationFailed after a failed
   * write, SoftapStatusResult otherwise.
   */
  function WriteConfig(fbuf: Option<string>, io: FileIo): (r: SetOutcome)
    ensures !io.openOk ==> r == Finished(OperationFailed, Untouched)
    ensures io.openOk && fbuf.None? ==> r == UndefinedBehaviour(NullConfigText)
    ensures io.openOk && fbuf.Some? ==>
      r.Finished? && (r.code == SoftapStatusResult <==> io.writeOk && io.chmodOk && io.chownOk)
    ensures r.Finished? && r.code == SoftapStatusResult ==> r.file == Written(fbuf.value)
    ensures r.Finished? && r.file.Written? ==> io.chmodOk && io.chownOk
    ensures r.Finished? && r.code != SoftapStatusResult ==> r.code == OperationFailed
    ensures io.openOk && fbuf.Some? && !(io.chmodOk && io.chownOk) ==> r.file == Removed
    ensures io.openOk && fbuf.Some? && io.chmodOk && io.chownOk ==>
      r.file == Written(if io.writeOk then fbuf.value else "")
  {
    if !io.openOk then Finished(OperationFailed, Untouched)
    else if fbuf.None? then UndefinedBehaviour(NullConfigText)
    else
      var text := if io.writeOk then fbuf.value else "";
      var code := if io.writeOk then SoftapStatusResult else OperationFailed;
      if !io.chmodOk || !io.chownOk then Finished(OperationFailed, Removed)
      else Finished(code, Written(text))
  }
}
