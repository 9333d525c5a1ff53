/** Streams that stop when authorization is withdrawn (src/protected-file-stream.js): the pump
    between its awaits, the timer, and the events of the destination, as atomic steps. */
module ProtectedStreams {

  /** What the authorization callback does when it is asked. */
  datatype Answer = Yes | No | Throws

  /** A stored file is read chunk by chunk; a serialized buffer is at hand, and may be sent under
      an authorization that is at most one interval old. */
  datatype Source = StoredFile | Serialized(authorizeEveryChunk: bool)

  /** Where the pump stands: before it started, waiting for a read or for the destination, able to
      go on, or finished. */
  datatype Phase = Idle | Reading(length: nat) | Blocked | Runnable | Finished

  /** A chunk handed to the destination, and when the callback last said yes. */
  datatype Write = Write(at: nat, allowedAt: nat, length: nat)

  datatype Options = Options(source: Source, content: seq<int>, size: nat, intervalMs: nat, chunkBytes: nat)

  /** content is what the file or buffer holds; a file may have become shorter than its size. */
  predicate ValidOptions(o: Options) {
    o.intervalMs >= 1 && o.chunkBytes >= 1 && (o.source.Serialized? ==> o.size == |o.content|)
  }

  datatype State = State(
    phase: Phase, stopped: bool, revoked: bool, failed: bool, finalized: bool,
    position: nat, remaining: nat, nextCheckAt: nat,
    output: seq<int>, ended: bool, destroyed: bool, reported: bool,
    writes: seq<Write>, allowedAt: nat, finalizations: nat)

  function Initial(o: Options): State {
    State(Idle, false, false, false, false, 0, o.size, 0, [], false, false, false, [], 0, 0)
  }

  // ----- the closures -----

  function Terminate(s: State): State {
    if s.stopped || s.finalized then s else s.(stopped := true, revoked := true, destroyed := true)
  }

  function Finalize(s: State): State {
    if s.finalized then s
    else s.(finalized := true, phase := Finished, finalizations := s.finalizations + 1,
            reported := s.failed && !s.revoked)
  }

  datatype Verified = Verified(state: State, ok: bool)

  function Verify(s: State, o: Options, force: bool, now: nat, answer: Answer): Verified {
    if s.stopped || s.finalized then Verified(s, false)
    else if !force && now < s.nextCheckAt then Verified(s, true)
    else if answer != Yes then Verified(Terminate(s), false)
    else Verified(s.(nextCheckAt := now + o.intervalMs, allowedAt := now), true)
  }

  /** The finally block. */
  function Finish(s: State): State {
    Finalize(if s.revoked then s.(destroyed := true) else s)
  }

  /** The catch block. */
  function Fail(s: State): State {
    Finish(s.(failed := s.failed || !s.revoked, stopped := true, destroyed := true))
  }

  // ----- the pump -----

  function Min(a: nat, b: nat): nat {
    if a < b then a else b
  }

  function Send(s: State, o: Options, length: nat, now: nat, canContinue: bool): State
    requires s.position + length <= |o.content| && length <= s.remaining
  {
    s.(position := s.position + length, remaining := s.remaining - length,
       output := s.output + o.content[s.position..s.position + length],
       writes := s.writes + [Write(now, s.allowedAt, length)],
       phase := if canContinue then Runnable else Blocked)
  }

  /** From the loop test to the next await or, for a buffer, to the next loop test. */
  function Continue(s: State, o: Options, now: nat, answer: Answer, canContinue: bool): State
    requires o.source.Serialized? ==> s.position + s.remaining == |o.content|
  {
    if s.stopped then Finish(s)
    else if s.remaining == 0 then Finish(s.(ended := true))
    else
      var v := Verify(s, o, o.source.Serialized? && o.source.authorizeEveryChunk, now, answer);
      if !v.ok then Finish(v.state)
      else
        var length := Min(o.chunkBytes, s.remaining);
        if o.source.StoredFile? then v.state.(phase := Reading(length))
        else Send(v.state, o, length, now, canContinue)
  }

  /** A read has come back with length bytes. */
  function Deliver(s: State, o: Options, length: nat, now: nat, answer: Answer, canContinue: bool): State
    requires s.position + length <= |o.content| && length <= s.remaining
  {
    if s.stopped then Finish(s)
    else if length == 0 then Finish(s.(ended := true))
    else
      var v := Verify(s, o, true, now, answer);
      if !v.ok then Finish(v.state) else Send(v.state, o, length, now, canContinue)
  }

  datatype Event =
    | Start(answer: Answer)
    | ReadDone(length: nat, answer: Answer, canContinue: bool)
    | ReadFailed
    | Resume(answer: Answer, canContinue: bool)
    | Tick(answer: Answer)
    | Drain
    | Close
    | DestinationError
    | Stop

  /** Waiting for drain, close or error ends with any of them. */
  function WakeUp(s: State): State {
    if s.phase.Blocked? then s.(phase := Runnable) else s
  }

  /** readSync returns nothing only at the end of the file; the timer ends with the stream. */
  predicate Enabled(s: State, o: Options, e: Event) {
    match e
    case Start(_) => s.phase.Idle?
    case ReadDone(length, _, _) =>
      s.phase.Reading? && length <= s.phase.length && s.position + length <= |o.content|
      && (length == 0 ==> s.position >= |o.content|)
    case ReadFailed => s.phase.Reading?
    case Resume(_, _) => s.phase.Runnable?
    case Tick(_) => !s.phase.Idle? && !s.finalized
    case _ => !s.phase.Idle?
  }

  ghost predicate Sound(s: State, o: Options) {
    && s.position + s.remaining == o.size && s.position <= |o.content|
    && (s.phase.Reading? ==> 0 < s.phase.length <= s.remaining)
  }

  function Apply(s: State, o: Options, e: Event, now: nat): State
    requires Enabled(s, o, e) && Sound(s, o) && ValidOptions(o)
  {
    match e
    case Start(answer) =>
      var v := Verify(s, o, true, now, answer);
      if !v.ok then Finalize(v.state) else v.state.(phase := Runnable)
    case ReadDone(length, answer, canContinue) => Deliver(s, o, length, now, answer, canContinue)
    case ReadFailed => Fail(s)
    case Resume(answer, canContinue) => Continue(s, o, now, answer, canContinue)
    case Tick(answer) => Verify(s, o, true, now, answer).state
    case Drain => WakeUp(s)
    case Close => WakeUp(s.(stopped := true))
    case DestinationError => WakeUp(s.(failed := s.failed || !s.revoked, stopped := true))
    case Stop => Terminate(s)
  }

  // ----- the invariant -----

  ghost predicate Invariant(s: State, o: Options, clock: nat) {
    && Sound(s, o)
    && s.output == o.content[..s.position]
    && (s.revoked ==> s.stopped)
    && (s.finalized <==> s.phase.Finished?) && s.finalizations == (if s.finalized then 1 else 0)
    && (s.ended ==> s.remaining == 0 || s.position >= |o.content|)
    && (s.reported ==> s.finalized && s.failed && !s.revoked)
    && s.allowedAt <= clock && s.nextCheckAt <= s.allowedAt + o.intervalMs
    && (forall w :: w in s.writes ==> Allowed(w, o))
  }

  /** Sent in the step of a positive answer or, where that is permitted, less than an interval
      after one. */
  predicate Allowed(w: Write, o: Options) {
    w.at == w.allowedAt
    || (o.source.Serialized? && !o.source.authorizeEveryChunk && w.allowedAt <= w.at < w.allowedAt + o.intervalMs)
  }

  lemma SendKeeps(s: State, o: Options, length: nat, now: nat, canContinue: bool)
    requires Invariant(s, o, now) && ValidOptions(o) && !s.finalized && !s.phase.Finished?
    requires 0 < length <= s.remaining && s.position + length <= |o.content|
    requires Allowed(Write(now, s.allowedAt, length), o) && !s.ended
    ensures Invariant(Send(s, o, length, now, canContinue), o, now)
  {
    assert o.content[..s.position + length] == o.content[..s.position] + o.content[s.position..s.position + length];
  }

  lemma VerifyKeeps(s: State, o: Options, force: bool, now: nat, answer: Answer)
    requires Invariant(s, o, now)
    ensures Invariant(Verify(s, o, force, now, answer).state, o, now)
  {}

  lemma FinishKeeps(s: State, o: Options, now: nat)
    requires Invariant(s, o, now)
    ensures Invariant(Finish(s), o, now)
  {}

  lemma ContinueKeeps(s: State, o: Options, now: nat, answer: Answer, canContinue: bool)
    requires Invariant(s, o, now) && ValidOptions(o) && s.phase.Runnable? && !s.ended
    ensures Invariant(Continue(s, o, now, answer, canContinue), o, now)
  {
    hide Verify, Finish, Send;
    FinishKeeps(s, o, now);
    var force := o.source.Serialized? && o.source.authorizeEveryChunk;
    var v := Verify(s, o, force, now, answer);
    VerifyKeeps(s, o, force, now, answer);
    VerifyAllows(s, o, force, now, answer);
    if s.remaining == 0 {
      FinishKeeps(s.(ended := true), o, now);
    } else if !v.ok {
      FinishKeeps(v.state, o, now);
    } else if o.source.Serialized? {
      SendKeeps(v.state, o, Min(o.chunkBytes, s.remaining), now, canContinue);
    }
  }

  /** A verification that passes changes neither phase nor data, and leaves a fresh answer, or one
      that is not due for renewal. */
  lemma VerifyAllows(s: State, o: Options, force: bool, now: nat, answer: Answer)
    requires s.nextCheckAt <= s.allowedAt + o.intervalMs
    ensures var v := Verify(s, o, force, now, answer);
            v.ok ==>
              && v.state.phase == s.phase && v.state.position == s.position && v.state.remaining == s.remaining
              && v.state.output == s.output && v.state.ended == s.ended && v.state.finalized == s.finalized
              && !v.state.stopped && !v.state.finalized
              && (v.state.allowedAt == now || (!force && now < v.state.allowedAt + o.intervalMs))
  {}

  lemma DeliverKeeps(s: State, o: Options, length: nat, now: nat, answer: Answer, canContinue: bool)
    requires Invariant(s, o, now) && ValidOptions(o) && Enabled(s, o, ReadDone(length, answer, canContinue)) && !s.ended
    ensures Invariant(Deliver(s, o, length, now, answer, canContinue), o, now)
  {
    hide Verify, Finish, Send;
    FinishKeeps(s, o, now);
    var v := Verify(s, o, true, now, answer);
    VerifyKeeps(s, o, true, now, answer);
    VerifyAllows(s, o, true, now, answer);
    if length == 0 {
      FinishKeeps(s.(ended := true), o, now);
    } else if !v.ok {
      FinishKeeps(v.state, o, now);
    } else {
      SendKeeps(v.state, o, length, now, canContinue);
    }
  }

  /** The end of the output is the end of the pump. */
  ghost predicate EndsFinished(s: State) {
    s.ended ==> s.finalized
  }

  lemma StepKeepsInvariant(s: State, o: Options, e: Event, clock: nat, now: nat)
    requires Invariant(s, o, clock) && EndsFinished(s) && ValidOptions(o) && clock <= now && Enabled(s, o, e)
    ensures Invariant(Apply(s, o, e, now), o, now) && EndsFinished(Apply(s, o, e, now))
  {
    hide Deliver, Continue, Verify;
    assert Invariant(s, o, now);
    match e
    case Start(answer) =>
      VerifyKeeps(s, o, true, now, answer);
      VerifyEnds(s, o, true, now, answer);
    case ReadDone(length, answer, canContinue) =>
      DeliverKeeps(s, o, length, now, answer, canContinue);
      DeliverEnds(s, o, length, now, answer, canContinue);
    case Resume(answer, canContinue) =>
      ContinueKeeps(s, o, now, answer, canContinue);
      ContinueEnds(s, o, now, answer, canContinue);
    case Tick(answer) =>
      VerifyKeeps(s, o, true, now, answer);
      VerifyEnds(s, o, true, now, answer);
    case _ =>
  }

  lemma VerifyEnds(s: State, o: Options, force: bool, now: nat, answer: Answer)
    ensures var t := Verify(s, o, force, now, answer).state;
            t.ended == s.ended && t.finalized == s.finalized && t.phase == s.phase && t.output == s.output
  {}

  lemma DeliverEnds(s: State, o: Options, length: nat, now: nat, answer: Answer, canContinue: bool)
    requires s.position + length <= |o.content| && length <= s.remaining && !s.ended
    ensures EndsFinished(Deliver(s, o, length, now, answer, canContinue))
  {}

  lemma ContinueEnds(s: State, o: Options, now: nat, answer: Answer, canContinue: bool)
    requires (o.source.Serialized? ==> s.position + s.remaining == |o.content|) && !s.ended
    ensures EndsFinished(Continue(s, o, now, answer, canContinue))
  {}

  // ----- single steps -----

  predicate Asked(e: Event) {
    e.Start? || e.ReadDone? || e.Resume? || e.Tick?
  }

  lemma QuietClosures(s: State)
    ensures Finish(s).output == s.output && Finalize(s).output == s.output && Fail(s).output == s.output
    ensures Terminate(s).output == s.output && WakeUp(s).output == s.output
  {
    hide Finish, Finalize;
    QuietFinish(s);
    QuietFinish(s.(failed := s.failed || !s.revoked, stopped := true, destroyed := true));
  }

  lemma QuietFinish(s: State)
    ensures Finish(s).output == s.output && Finalize(s).output == s.output
  {}

  lemma ForcedAnswer(s: State, o: Options, force: bool, now: nat, answer: Answer)
    requires Verify(s, o, force, now, answer).ok
    ensures !s.stopped && !s.finalized && (answer == Yes || (!force && now < s.nextCheckAt))
  {}

  lemma DeliverNeedsYes(s: State, o: Options, length: nat, now: nat, answer: Answer, canContinue: bool)
    requires s.position + length <= |o.content| && length <= s.remaining
    requires Deliver(s, o, length, now, answer, canContinue).output != s.output
    ensures !s.stopped && !s.finalized && answer == Yes
  {
    hide Verify, Send, Finish;
    QuietClosures(s);
    QuietClosures(s.(ended := true));
    var v := Verify(s, o, true, now, answer);
    VerifyEnds(s, o, true, now, answer);
    QuietClosures(v.state);
    if v.ok {
      ForcedAnswer(s, o, true, now, answer);
    }
  }

  lemma ContinueNeedsYes(s: State, o: Options, now: nat, answer: Answer, canContinue: bool)
    requires o.source.Serialized? ==> s.position + s.remaining == |o.content|
    requires Continue(s, o, now, answer, canContinue).output != s.output
    ensures !s.stopped && !s.finalized && o.source.Serialized?
    ensures answer == Yes || (!o.source.authorizeEveryChunk && now < s.nextCheckAt)
  {
    hide Verify, Send, Finish;
    QuietClosures(s);
    QuietClosures(s.(ended := true));
    var force := o.source.Serialized? && o.source.authorizeEveryChunk;
    var v := Verify(s, o, force, now, answer);
    VerifyEnds(s, o, force, now, answer);
    QuietClosures(v.state);
    if v.ok {
      ForcedAnswer(s, o, force, now, answer);
    }
  }

  /** Bytes leave only in a step of the pump that is neither stopped nor revoked; of a file, or of
      a buffer that is checked for every chunk, only if the callback says yes in that very step. */
  lemma OutputNeedsAuthorization(s: State, o: Options, e: Event, now: nat)
    requires Sound(s, o) && ValidOptions(o) && Enabled(s, o, e)
    requires Apply(s, o, e, now).output != s.output
    ensures (e.ReadDone? || e.Resume?) && !s.stopped && !s.finalized
    ensures o.source.StoredFile? || o.source.authorizeEveryChunk ==> e.answer == Yes
    ensures e.answer == Yes || now < s.nextCheckAt
  {
    hide Deliver, Continue, Verify, Finalize, Fail, Terminate, WakeUp;
    QuietClosures(s);
    match e
    case ReadDone(length, answer, canContinue) => DeliverNeedsYes(s, o, length, now, answer, canContinue);
    case Resume(answer, canContinue) => ContinueNeedsYes(s, o, now, answer, canContinue);
    case Start(answer) =>
      VerifyEnds(s, o, true, now, answer);
      QuietClosures(Verify(s, o, true, now, answer).state);
    case Tick(answer) => VerifyEnds(s, o, true, now, answer);
    case Close => QuietClosures(s.(stopped := true));
    case DestinationError => QuietClosures(s.(failed := s.failed || !s.revoked, stopped := true));
    case _ =>
  }

  /** Once stopped, revoked or finalized, a stream stays so and puts out nothing more. */
  lemma StoppedIsFinal(s: State, o: Options, e: Event, now: nat)
    requires Sound(s, o) && ValidOptions(o) && Enabled(s, o, e) && (s.revoked ==> s.stopped)
    requires (s.stopped || s.finalized) && (s.finalized <==> s.phase.Finished?)
    ensures var t := Apply(s, o, e, now);
            && t.output == s.output && (s.stopped ==> t.stopped) && (s.finalized ==> t.finalized)
            && (t.revoked <==> s.revoked) && (s.finalized ==> t.finalizations == s.finalizations && t.ended == s.ended)
  {
    match e
    case Start(_) =>
    case ReadDone(_, _, _) =>
    case ReadFailed =>
    case Resume(_, _) =>
    case Tick(_) =>
    case _ =>
  }

  // ----- runs -----

  ghost predicate IsRun(states: seq<State>, events: seq<Event>, times: seq<nat>, o: Options) {
    && |states| == |events| + 1 && |times| == |events| && states[0] == Initial(o) && ValidOptions(o)
    && (forall i, j :: 0 <= i < j < |times| ==> times[i] <= times[j])
    && forall i :: 0 <= i < |events| ==> Follows(states[i], events[i], times[i], states[i + 1], o)
  }

  ghost predicate Follows(s: State, e: Event, now: nat, t: State, o: Options) {
    ValidOptions(o) && Sound(s, o) && Enabled(s, o, e) && t == Apply(s, o, e, now)
  }

  lemma InitialInvariant(o: Options)
    requires ValidOptions(o)
    ensures Invariant(Initial(o), o, 0) && EndsFinished(Initial(o))
  {}

  lemma {:induction false} RunInvariant(states: seq<State>, events: seq<Event>, times: seq<nat>, o: Options, i: nat)
    requires IsRun(states, events, times, o) && i < |states|
    ensures Invariant(states[i], o, if i == 0 then 0 else times[i - 1]) && EndsFinished(states[i])
  {
    hide Invariant, Apply, Enabled, EndsFinished;
    if i == 0 {
      InitialInvariant(o);
    } else {
      RunInvariant(states, events, times, o, i - 1);
      assert Follows(states[i - 1], events[i - 1], times[i - 1], states[i], o);
      StepKeepsInvariant(states[i - 1], o, events[i - 1], if i == 1 then 0 else times[i - 2], times[i - 1]);
    }
  }

  /** What has been written is a prefix of the first size bytes; a stream that was ended has
      written all of them, or all that the file still had; the end is finalized exactly once. */
  lemma OutputIsPrefix(states: seq<State>, events: seq<Event>, times: seq<nat>, o: Options, i: nat)
    requires IsRun(states, events, times, o) && i < |states|
    ensures var s := states[i];
            && |s.output| <= o.size && s.output <= o.content
            && (s.ended ==> s.output == if o.size <= |o.content| then o.content[..o.size] else o.content)
            && (s.phase.Finished? <==> s.finalizations == 1) && s.finalizations <= 1
            && (s.reported ==> s.failed && !s.revoked)
  {
    RunInvariant(states, events, times, o, i);
    if states[i].ended && states[i].position >= |o.content| {
      assert o.content[..states[i].position] == o.content;
    }
  }

  /** Each chunk left under a positive answer of the same step, or of less than one interval before
      where the stream was told to keep answers that long. */
  lemma WritesAreAuthorized(states: seq<State>, events: seq<Event>, times: seq<nat>, o: Options, i: nat, w: Write)
    requires IsRun(states, events, times, o) && i < |states| && w in states[i].writes
    ensures Allowed(w, o)
  {
    RunInvariant(states, events, times, o, i);
  }

  /** From the moment a stream is revoked, stopped or finalized no byte leaves. */
  lemma {:induction false} StoppedStaysSilent(
    states: seq<State>, events: seq<Event>, times: seq<nat>, o: Options, i: nat, j: nat
  )
    requires IsRun(states, events, times, o) && i <= j < |states| && (states[i].stopped || states[i].finalized)
    ensures states[j].output == states[i].output && states[j].revoked == states[i].revoked
    ensures (states[i].stopped ==> states[j].stopped) && (states[i].finalized ==> states[j].finalized)
    decreases j - i
  {
    hide Apply, Enabled, Sound;
    if i < j {
      StoppedStaysSilent(states, events, times, o, i, j - 1);
      assert Follows(states[j - 1], events[j - 1], times[j - 1], states[j], o);
      RunInvariant(states, events, times, o, j - 1);
      StoppedIsFinal(states[j - 1], o, events[j - 1], times[j - 1]);
    }
  }

  /** If the callback no longer says yes from step i on, a file stream puts out nothing more. */
  lemma {:induction false} WithdrawnStaysSilent(
    states: seq<State>, events: seq<Event>, times: seq<nat>, o: Options, i: nat, j: nat
  )
    requires IsRun(states, events, times, o) && i <= j < |states|
    requires o.source.StoredFile? || o.source.authorizeEveryChunk
    requires forall k :: i <= k < |events| && Asked(events[k]) ==> events[k].answer != Yes
    ensures states[j].output == states[i].output
    decreases j - i
  {
    hide Apply, Enabled, Sound;
    if i < j {
      WithdrawnStaysSilent(states, events, times, o, i, j - 1);
      assert Follows(states[j - 1], events[j - 1], times[j - 1], states[j], o);
      if states[j].output != states[j - 1].output {
        OutputNeedsAuthorization(states[j - 1], o, events[j - 1], times[j - 1]);
        assert false;
      }
    }
  }

  /** A timer tick that is not answered with yes revokes a stream that is under way, and destroys
      its destination. */
  lemma TickRevokes(s: State, o: Options, answer: Answer, now: nat)
    requires Sound(s, o) && ValidOptions(o) && Enabled(s, o, Tick(answer)) && !s.stopped && answer != Yes
    ensures var t := Apply(s, o, Tick(answer), now); t.revoked && t.stopped && t.destroyed
  {}
}
