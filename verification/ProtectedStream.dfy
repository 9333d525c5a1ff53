/** A protected stream as its closures run: flags and counters that the pump, the timer and the
    destination's events update. */
module ProtectedStream {
  import opened ProtectedStreams

  class Stream {
    const options: Options
    var phase: Phase
    var stopped: bool
    var revoked: bool
    var failed: bool
    var finalized: bool
    var position: nat
    var remainingBytes: nat
    var nextAuthorizationCheckAt: nat
    var output: seq<int>
    var ended: bool
    var destroyed: bool
    var reported: bool
    ghost var writes: seq<Write>
    ghost var allowedAt: nat
    ghost var finalizations: nat

    ghost function Snapshot(): State
      reads this
    {
      State(phase, stopped, revoked, failed, finalized, position, remainingBytes, nextAuthorizationCheckAt,
            output, ended, destroyed, reported, writes, allowedAt, finalizations)
    }

    constructor (options: Options)
      requires ValidOptions(options)
      ensures Snapshot() == Initial(options) && this.options == options
    {
      this.options := options;
      phase := Idle;
      stopped, revoked, failed, finalized := false, false, false, false;
      position, remainingBytes, nextAuthorizationCheckAt := 0, options.size, 0;
      output, ended, destroyed, reported := [], false, false, false;
      writes, allowedAt, finalizations := [], 0, 0;
    }

    method TerminateForRevocation()
      modifies this
      ensures Snapshot() == Terminate(old(Snapshot()))
    {
      if stopped || finalized {
        return;
      }
      stopped := true;
      revoked := true;
      destroyed := true;
    }

    method FinalizeOnce()
      modifies this
      ensures Snapshot() == Finalize(old(Snapshot()))
    {
      if finalized {
        return;
      }
      finalized := true;
      finalizations := finalizations + 1;
      phase := Finished;
      reported := failed && !revoked;
    }

    method VerifyAuthorization(force: bool, now: nat, answer: Answer) returns (ok: bool)
      modifies this
      ensures Verified(Snapshot(), ok) == Verify(old(Snapshot()), options, force, now, answer)
    {
      if stopped || finalized {
        return false;
      }
      if !force && now < nextAuthorizationCheckAt {
        return true;
      }
      if answer != Yes {
        TerminateForRevocation();
        return false;
      }
      nextAuthorizationCheckAt := now + options.intervalMs;
      allowedAt := now;
      return true;
    }

    /** The finally block of the pump. */
    method FinishPump()
      modifies this
      ensures Snapshot() == Finish(old(Snapshot()))
    {
      if revoked {
        destroyed := true;
      }
      FinalizeOnce();
    }

    /** destination.write */
    method WriteChunk(length: nat, now: nat, canContinue: bool)
      requires position + length <= |options.content| && length <= remainingBytes
      modifies this
      ensures Snapshot() == Send(old(Snapshot()), options, length, now, canContinue)
    {
      output := output + options.content[position..position + length];
      position := position + length;
      remainingBytes := remainingBytes - length;
      writes := writes + [Write(now, allowedAt, length)];
      phase := if canContinue then Runnable else Blocked;
    }

    method Begin(now: nat, answer: Answer) returns (started: bool)
      requires phase.Idle? && ValidOptions(options) && Sound(Snapshot(), options)
      modifies this
      ensures Snapshot() == Apply(old(Snapshot()), options, Start(answer), now)
    {
      hide Verify, Finalize;
      started := VerifyAuthorization(true, now, answer);
      if started {
        phase := Runnable;
      } else {
        FinalizeOnce();
      }
    }

    method PumpOn(now: nat, answer: Answer, canContinue: bool)
      requires phase.Runnable? && ValidOptions(options) && Sound(Snapshot(), options)
      modifies this
      ensures Snapshot() == Apply(old(Snapshot()), options, Resume(answer, canContinue), now)
    {
      hide Verify, Finish, Send;
      if stopped {
        FinishPump();
        return;
      }
      if remainingBytes == 0 {
        ended := true;
        FinishPump();
        return;
      }
      var ok := VerifyAuthorization(options.source.Serialized? && options.source.authorizeEveryChunk, now, answer);
      VerifyFrame(old(Snapshot()), options, options.source.Serialized? && options.source.authorizeEveryChunk, now,
                  answer);
      if !ok {
        FinishPump();
        return;
      }
      var length := Min(options.chunkBytes, remainingBytes);
      if options.source.StoredFile? {
        phase := Reading(length);
      } else {
        WriteChunk(length, now, canContinue);
      }
    }

    /** A fresh decision immediately before the chunk leaves. */
    method OnRead(length: nat, now: nat, answer: Answer, canContinue: bool)
      requires Enabled(Snapshot(), options, ReadDone(length, answer, canContinue))
      requires ValidOptions(options) && Sound(Snapshot(), options)
      modifies this
      ensures Snapshot() == Apply(old(Snapshot()), options, ReadDone(length, answer, canContinue), now)
    {
      hide Verify, Finish, Send;
      if stopped {
        FinishPump();
        return;
      }
      if length == 0 {
        ended := true;
        FinishPump();
        return;
      }
      var ok := VerifyAuthorization(true, now, answer);
      VerifyFrame(old(Snapshot()), options, true, now, answer);
      if ok {
        WriteChunk(length, now, canContinue);
      } else {
        FinishPump();
      }
    }

    method OnReadError(now: nat)
      requires Enabled(Snapshot(), options, ReadFailed) && ValidOptions(options) && Sound(Snapshot(), options)
      modifies this
      ensures Snapshot() == Apply(old(Snapshot()), options, ReadFailed, now)
    {
      if !revoked {
        failed := true;
      }
      stopped := true;
      destroyed := true;
      FinishPump();
    }

    method OnTick(now: nat, answer: Answer)
      requires Enabled(Snapshot(), options, Tick(answer)) && ValidOptions(options) && Sound(Snapshot(), options)
      modifies this
      ensures Snapshot() == Apply(old(Snapshot()), options, Tick(answer), now)
    {
      hide Verify;
      var _ := VerifyAuthorization(true, now, answer);
    }

    method OnDrain(now: nat)
      requires Enabled(Snapshot(), options, Drain) && ValidOptions(options) && Sound(Snapshot(), options)
      modifies this
      ensures Snapshot() == Apply(old(Snapshot()), options, Drain, now)
    {
      if phase.Blocked? {
        phase := Runnable;
      }
    }

    method OnClose(now: nat)
      requires Enabled(Snapshot(), options, Close) && ValidOptions(options) && Sound(Snapshot(), options)
      modifies this
      ensures Snapshot() == Apply(old(Snapshot()), options, Close, now)
    {
      stopped := true;
      if phase.Blocked? {
        phase := Runnable;
      }
    }

    method OnDestinationError(now: nat)
      requires Enabled(Snapshot(), options, DestinationError) && ValidOptions(options) && Sound(Snapshot(), options)
      modifies this
      ensures Snapshot() == Apply(old(Snapshot()), options, DestinationError, now)
    {
      if !revoked && !failed {
        failed := true;
      }
      stopped := true;
      if phase.Blocked? {
        phase := Runnable;
      }
    }
  }

  lemma VerifyFrame(s: State, o: Options, force: bool, now: nat, answer: Answer)
    ensures var t := Verify(s, o, force, now, answer).state; t.position == s.position && t.remaining == s.remaining
  {}
}
