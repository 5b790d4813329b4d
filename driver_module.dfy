/**
 * `rmmod` of SoftapControllerATH.cpp: unload a kernel module with
 * `delete_module(name, O_NONBLOCK | O_EXCL)`, retrying while the module is
 * busy. Each call's outcome is an oracle indexed by the attempt number.
 */
module DriverModule {

  /** What `delete_module` returned on one attempt, and whether errno was then EAGAIN. */
  datatype Deletion = Deletion(ret: int, eagain: bool)

  /** `maxtry`: at most 10 attempts, 500 ms apart. */
  const MaxTries := 10

  /** An attempt is retried only when it failed with EAGAIN. */
  predicate Busy(d: Deletion) {
    d.ret < 0 && d.eagain
  }

  /** The result from attempt k on: the first attempt that is not busy decides, or the 10th does. */
  function RmmodFrom(del: nat -> Deletion, k: nat): (r: (int, nat))
    requires k < MaxTries
    decreases MaxTries - k
    ensures k < r.1 <= MaxTries
  {
    if Busy(del(k)) && k + 1 < MaxTries then RmmodFrom(del, k + 1) else (del(k).ret, k + 1)
  }

  /** `rmmod`: returns `delete_module`'s last result and the number of attempts made. */
  method Rmmod(del: nat -> Deletion) returns (ret: int, tries: nat)
    ensures (ret, tries) == RmmodFrom(del, 0)
    ensures 1 <= tries <= MaxTries
    ensures ret == del(tries - 1).ret
    ensures forall j :: 0 <= j < tries - 1 ==> Busy(del(j))
    ensures tries < MaxTries ==> !Busy(del(tries - 1))
  {
    ret := -1;
    var maxtry := MaxTries;
    tries := 0;
    while maxtry > 0
      invariant 0 <= maxtry <= MaxTries && tries == MaxTries - maxtry
      invariant forall j :: 0 <= j < tries ==> Busy(del(j))
      invariant tries > 0 ==> ret == del(tries - 1).ret
      invariant tries < MaxTries ==> RmmodFrom(del, tries) == RmmodFrom(del, 0)
    {
      maxtry := maxtry - 1;
      var d := del(tries);
      ret := d.ret;
      tries := tries + 1;
      if !(d.ret < 0 && d.eagain) {
        return;
      }
    }
  }

  /** `rmmod` succeeds exactly when some attempt among the first 10 returns 0 and every earlier one was busy. */
  lemma {:induction false} RmmodFromIff(del: nat -> Deletion, from: nat)
    requires from < MaxTries
    decreases MaxTries - from
    ensures RmmodFrom(del, from).0 == 0 <==>
      exists k :: from <= k < MaxTries && del(k).ret == 0 && forall j :: from <= j < k ==> Busy(del(j))
  {
    if Busy(del(from)) && from + 1 < MaxTries {
      RmmodFromIff(del, from + 1);
      if RmmodFrom(del, from).0 == 0 {
        var k :| from + 1 <= k < MaxTries && del(k).ret == 0 && forall j :: from + 1 <= j < k ==> Busy(del(j));
        assert forall j :: from <= j < k ==> Busy(del(j));
      }
      if exists k :: from <= k < MaxTries && del(k).ret == 0 && forall j :: from <= j < k ==> Busy(del(j)) {
        var k :| from <= k < MaxTries && del(k).ret == 0 && forall j :: from <= j < k ==> Busy(del(j));
        assert k != from;
        assert forall j :: from + 1 <= j < k ==> Busy(del(j));
      }
    }
  }
}
