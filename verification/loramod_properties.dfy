/**
  What the LoRa modulator baseband keeps true across its entry points.

  The central invariant: whenever the channelizer has been given a
  channelization at all, the most recent one is the one the current settings
  call for (bandwidth times oversampling, at the input frequency offset).
  `applySettings` establishes it, every other entry point leaves the
  channelization alone.  Around it: the message queue is processed in order
  however it is split into batches, unrecognised messages are kept in order,
  and the channel settings given to the source are what the channelizer
  reports at that moment.
 */
module LoRaModProperties {
  import opened LoRaModBaseband

  // ---------------------------------------------------------------------
  // The channelization invariant
  // ---------------------------------------------------------------------

  lemma LastChannelizationSnoc(ops: seq<ChannelizerOp>, op: ChannelizerOp)
    ensures LastChannelization(ops + [op]) ==
              if op.SetChannelization? then Some((op.channelSampleRate, op.frequencyOffset))
              else LastChannelization(ops)
  {
    assert (ops + [op])[..|ops|] == ops;
  }

  /** A call that does not change the channelization. */
  predicate KeepsChannelization(c: Call) {
    !(c.ToChannelizer? && c.channelizerOp.SetChannelization?)
  }

  /** Calls that never set a channelization leave the most recent one as it was. */
  lemma {:induction false} AppendKeepsChannelization(t: seq<Call>, u: seq<Call>)
    requires forall i :: 0 <= i < |u| ==> KeepsChannelization(u[i])
    ensures LastChannelization(ChannelizerOps(t + u)) == LastChannelization(ChannelizerOps(t))
    decreases |u|
  {
    if u == [] {
      assert t + u == t;
    } else {
      var front := u[..|u| - 1];
      var c := u[|u| - 1];
      assert t + u == (t + front) + [c];
      assert KeepsChannelization(c);
      assert forall i :: 0 <= i < |front| ==> front[i] == u[i];
      AppendKeepsChannelization(t, front);
      ChannelizerOpsSnoc(t + front, c);
      if c.ToChannelizer? {
        LastChannelizationSnoc(ChannelizerOps(t + front), c.channelizerOp);
        assert ChannelizerOps(t + u) == ChannelizerOps(t + front) + [c.channelizerOp];
      } else {
        assert ChannelizerOps(t + u) == ChannelizerOps(t + front) + [];
        assert ChannelizerOps(t + front) + [] == ChannelizerOps(t + front);
      }
    }
  }

  /** The channelizer carries the channelization the current settings call for, or none yet. */
  ghost predicate InSync(env: Collaborators, s: Baseband) {
    && s.settings.bandwidthIndex < |env.bandwidths|
    && var last := LastChannelization(ChannelizerOps(s.trace));
       last.None? || last == Some(ChannelizationFor(env, s.settings))
  }

  /** A freshly constructed baseband has not yet channelized anything. */
  lemma CreateInSync(env: Collaborators, defaults: Settings)
    requires defaults.bandwidthIndex < |env.bandwidths|
    ensures LastChannelization(ChannelizerOps(Create(env, defaults).trace)).None?
    ensures InSync(env, Create(env, defaults))
  {
    var r := Create(env, defaults);
    assert ChannelizerOps(r.trace) == [];
  }

  /**
    `applySettings` keeps the invariant, and whenever its rule fires the
    channelizer ends up with exactly the channelization the new settings call for.
   */
  lemma ApplySettingsKeepsInSync(env: Collaborators, s: Baseband, settings: Settings, force: bool)
    requires InSync(env, s) && settings.bandwidthIndex < |env.bandwidths|
    ensures InSync(env, ApplySettings(env, s, settings, force))
    ensures Reconfigures(s.settings, settings, force) ==>
              LastChannelization(ChannelizerOps(ApplySettings(env, s, settings, force).trace))
                == Some(ChannelizationFor(env, settings))
  {
    ApplySettingsCalls(env, s, settings, force);
    var r := ApplySettings(env, s, settings, force);
    if Reconfigures(s.settings, settings, force) {
      LastChannelizationSnoc(ChannelizerOps(s.trace), SetChannelization(ChannelizationFor(env, settings).0,
                                                                        ChannelizationFor(env, settings).1));
    } else {
      assert ChannelizationFor(env, settings) == ChannelizationFor(env, s.settings);
    }
  }

  /** Every handled message keeps the invariant. */
  lemma HandleMessageKeepsInSync(env: Collaborators, s: Baseband, m: Message)
    requires InSync(env, s)
    requires m.ConfigureBaseband? ==> m.settings.bandwidthIndex < |env.bandwidths|
    ensures Handleable(env, s, m)
    ensures InSync(env, HandleMessage(env, s, m).next)
  {
    var r := HandleMessage(env, s, m);
    match m
    case ConfigureBaseband(settings, force) =>
      ApplySettingsKeepsInSync(env, s, settings, force);
    case ConfigurePayload(symbols) =>
      AppendKeepsChannelization(s.trace, [ToSource(SetSymbols(symbols))]);
    case SignalNotification(sampleRate, _) =>
      var u := r.next.trace[|s.trace|..];
      assert r.next.trace == s.trace + u;
      assert forall i :: 0 <= i < |u| ==> KeepsChannelization(u[i]);
      AppendKeepsChannelization(s.trace, u);
    case Unrecognised(_) =>
  }

  /** Every message, and the current settings, name an entry of the bandwidth table. */
  ghost predicate IndicesInRange(env: Collaborators, s: Baseband, msgs: seq<Message>) {
    && s.settings.bandwidthIndex < |env.bandwidths|
    && forall i :: 0 <= i < |msgs| ==> msgs[i].ConfigureBaseband? ==>
         msgs[i].settings.bandwidthIndex < |env.bandwidths|
  }

  lemma IndicesInRangeTail(env: Collaborators, s: Baseband, msgs: seq<Message>)
    requires |msgs| > 0 && IndicesInRange(env, s, msgs)
    ensures Handleable(env, s, msgs[0])
    ensures IndicesInRange(env, Dispatch(env, s, msgs[0]), msgs[1..])
  {
    assert forall i :: 0 <= i < |msgs[1..]| ==> msgs[1..][i] == msgs[i + 1];
  }

  /** A queue whose every bandwidth index is in range can be dispatched to the end. */
  lemma {:induction false} InRangeDispatchable(env: Collaborators, s: Baseband, msgs: seq<Message>)
    requires IndicesInRange(env, s, msgs)
    ensures Dispatchable(env, s, msgs)
    decreases |msgs|
  {
    if msgs != [] {
      IndicesInRangeTail(env, s, msgs);
      InRangeDispatchable(env, Dispatch(env, s, msgs[0]), msgs[1..]);
    }
  }

  /** `handleInputMessages` keeps the invariant, whatever the queue holds. */
  lemma {:induction false} DispatchAllKeepsInSync(env: Collaborators, s: Baseband, msgs: seq<Message>)
    requires InSync(env, s) && IndicesInRange(env, s, msgs)
    ensures Dispatchable(env, s, msgs)
    ensures InSync(env, DispatchAll(env, s, msgs))
    decreases |msgs|
  {
    InRangeDispatchable(env, s, msgs);
    if msgs != [] {
      IndicesInRangeTail(env, s, msgs);
      HandleMessageKeepsInSync(env, s, msgs[0]);
      DispatchAllKeepsInSync(env, Dispatch(env, s, msgs[0]), msgs[1..]);
    }
  }

  /** `reset` keeps the invariant. */
  lemma ResetKeepsInSync(env: Collaborators, s: Baseband)
    requires InSync(env, s)
    ensures InSync(env, ResetFifo(s))
  {
    AppendKeepsChannelization(s.trace, [ToFifo(Reset)]);
    assert ResetFifo(s).trace == s.trace + [ToFifo(Reset)];
  }

  /** `handleData` only reserves FIFO room, pulls samples and reads levels: it keeps the invariant. */
  lemma HandleDataKeepsInSync(env: Collaborators, s: Baseband, pending: bool)
    requires FifoDrains(env) && InSync(env, s)
    ensures var t := s.trace + Drain(env, s.trace, pending);
            InSync(env, s.(trace := t + [ToSource(GetLevels), LevelChanged(env.levels(t))]))
  {
    var d := Drain(env, s.trace, pending);
    var t := s.trace + d;
    var tail := [ToSource(GetLevels), LevelChanged(env.levels(t))];
    forall i | 0 <= i < |d|
      ensures KeepsChannelization(d[i])
    {
      assert DrainCall(d[i]);
    }
    AppendKeepsChannelization(s.trace, d);
    AppendKeepsChannelization(t, tail);
  }

  // ---------------------------------------------------------------------
  // What the source is told
  // ---------------------------------------------------------------------

  /**
    When `applySettings` reconfigures, the source receives the channel rate
    and offset the channelizer reports right after, and the new bandwidth.
   */
  lemma SourceSeesChannelizerOnApply(env: Collaborators, s: Baseband, settings: Settings, force: bool)
    requires settings.bandwidthIndex < |env.bandwidths| && Reconfigures(s.settings, settings, force)
    ensures var r := ApplySettings(env, s, settings, force);
            && |r.trace| >= 2
            && r.trace[|r.trace| - 2] ==
                 ToSource(ApplyChannelSettings(GetChannelSampleRate(env, r),
                                               env.bandwidths[settings.bandwidthIndex],
                                               env.channelFrequencyOffset(ChannelizerOps(r.trace))))
  {
    var r := ApplySettings(env, s, settings, force);
    var t1 := s.trace + [ToChannelizer(SetChannelization(ChannelizationFor(env, settings).0,
                                                         settings.inputFrequencyOffset))];
    var ops := ChannelizerOps(t1);
    var c2 := ToSource(ApplyChannelSettings(env.channelSampleRate(ops), env.bandwidths[settings.bandwidthIndex],
                                            env.channelFrequencyOffset(ops)));
    var c3 := ToSource(ApplySourceSettings(settings, force));
    assert r.trace == (t1 + [c2]) + [c3];
    ChannelizerOpsSnoc(t1, c2);
    ChannelizerOpsSnoc(t1 + [c2], c3);
    assert ChannelizerOps(t1) + [] == ChannelizerOps(t1);
    assert ChannelizerOps(r.trace) == ops;
    assert r.trace[|r.trace| - 2] == c2;
  }

  /**
    On a sample-rate notification the FIFO is resized for the new rate, the
    channelizer learns the rate, and then the source receives the channel rate
    and offset the channelizer reports, with the current bandwidth.
   */
  lemma SignalNotificationCalls(env: Collaborators, s: Baseband, sampleRate: int, centerFrequency: int)
    requires s.settings.bandwidthIndex < |env.bandwidths|
    ensures var r := HandleMessage(env, s, SignalNotification(sampleRate, centerFrequency)).next;
            && FifoOps(r.trace) == FifoOps(s.trace) + [Resize(env.sizePolicy(sampleRate))]
            && ChannelizerOps(r.trace) == ChannelizerOps(s.trace) + [SetBasebandSampleRate(sampleRate)]
            && r.trace[|r.trace| - 1] ==
                 ToSource(ApplyChannelSettings(GetChannelSampleRate(env, r),
                                               env.bandwidths[s.settings.bandwidthIndex],
                                               env.channelFrequencyOffset(ChannelizerOps(r.trace))))
            && r.settings == s.settings && r.undeleted == s.undeleted
  {
    var r := HandleMessage(env, s, SignalNotification(sampleRate, centerFrequency)).next;
    var c0 := ToFifo(Resize(env.sizePolicy(sampleRate)));
    var c1 := ToChannelizer(SetBasebandSampleRate(sampleRate));
    var t0 := s.trace + [c0];
    var t1 := t0 + [c1];
    assert t1 == s.trace + [c0, c1];
    var ops := ChannelizerOps(t1);
    var c2 := ToSource(ApplyChannelSettings(env.channelSampleRate(ops), env.bandwidths[s.settings.bandwidthIndex],
                                            env.channelFrequencyOffset(ops)));
    assert r.trace == t1 + [c2];
    FifoOpsSnoc(s.trace, c0);
    FifoOpsSnoc(t0, c1);
    FifoOpsSnoc(t1, c2);
    ChannelizerOpsSnoc(s.trace, c0);
    ChannelizerOpsSnoc(t0, c1);
    ChannelizerOpsSnoc(t1, c2);
    assert ChannelizerOps(t1) + [] == ChannelizerOps(t1);
    assert ChannelizerOps(r.trace) == ops;
    assert r.trace[|r.trace| - 1] == c2;
  }

  /**
    The channel sample rate the baseband reports is the channelizer's answer
    to the channelizations and rates given so far: `reset` and unchanged
    settings leave it alone, and a reconfiguration makes it the answer for the
    newly requested channelization.
   */
  lemma ChannelSampleRateTracksChannelizer(env: Collaborators, s: Baseband, settings: Settings, force: bool)
    requires settings.bandwidthIndex < |env.bandwidths|
    ensures GetChannelSampleRate(env, ResetFifo(s)) == GetChannelSampleRate(env, s)
    ensures !Reconfigures(s.settings, settings, force) ==>
              GetChannelSampleRate(env, ApplySettings(env, s, settings, force)) == GetChannelSampleRate(env, s)
    ensures Reconfigures(s.settings, settings, force) ==>
              var (rate, offset) := ChannelizationFor(env, settings);
              GetChannelSampleRate(env, ApplySettings(env, s, settings, force))
                == env.channelSampleRate(ChannelizerOps(s.trace) + [SetChannelization(rate, offset)])
  {
    ApplySettingsCalls(env, s, settings, force);
  }

  /** Applying the same settings a second time, unforced, only passes them to the source again. */
  lemma ApplySettingsIdempotent(env: Collaborators, s: Baseband, settings: Settings, force: bool)
    requires Reconfigures(s.settings, settings, force) ==> settings.bandwidthIndex < |env.bandwidths|
    ensures var r1 := ApplySettings(env, s, settings, force);
            var r2 := ApplySettings(env, r1, settings, false);
            && r2.settings == r1.settings
            && r2.trace == r1.trace + [ToSource(ApplySourceSettings(settings, false))]
            && ChannelizerOps(r2.trace) == ChannelizerOps(r1.trace)
            && FifoOps(r2.trace) == FifoOps(r1.trace)
  {
    var r1 := ApplySettings(env, s, settings, force);
    ApplySettingsCalls(env, r1, settings, false);
  }

  // ---------------------------------------------------------------------
  // The message queue
  // ---------------------------------------------------------------------

  /** The messages nobody handles, in queue order. */
  function Unhandled(msgs: seq<Message>): (r: seq<Message>)
    ensures |r| <= |msgs|
    ensures forall i :: 0 <= i < |r| ==> r[i].Unrecognised?
  {
    if msgs == [] then []
    else (if msgs[0].Unrecognised? then [msgs[0]] else []) + Unhandled(msgs[1..])
  }

  /** The settings in force after a queue: those of its last configuration message, if any. */
  function FinalSettings(current: Settings, msgs: seq<Message>): Settings
    decreases |msgs|
  {
    if msgs == [] then current
    else FinalSettings(if msgs[0].ConfigureBaseband? then msgs[0].settings else current, msgs[1..])
  }

  /** What one dispatch does to the settings and to the undeleted messages. */
  lemma DispatchOutcome(env: Collaborators, s: Baseband, m: Message)
    requires Handleable(env, s, m)
    ensures Dispatch(env, s, m).settings == if m.ConfigureBaseband? then m.settings else s.settings
    ensures Dispatch(env, s, m).undeleted == s.undeleted + (if m.Unrecognised? then [m] else [])
  {
    if !m.Unrecognised? {
      assert s.undeleted + [] == s.undeleted;
    }
  }

  /**
    After `handleInputMessages` the baseband holds the settings of the last
    configuration message, and exactly the unrecognised messages, in order,
    have been left undeleted.
   */
  lemma {:induction false} DispatchAllOutcome(env: Collaborators, s: Baseband, msgs: seq<Message>)
    requires Dispatchable(env, s, msgs)
    ensures DispatchAll(env, s, msgs).settings == FinalSettings(s.settings, msgs)
    ensures DispatchAll(env, s, msgs).undeleted == s.undeleted + Unhandled(msgs)
    decreases |msgs|
  {
    if msgs == [] {
      assert s.undeleted + [] == s.undeleted;
    } else {
      var s1 := Dispatch(env, s, msgs[0]);
      DispatchOutcome(env, s, msgs[0]);
      DispatchAllOutcome(env, s1, msgs[1..]);
    }
  }

  /**
    Draining a queue in two batches does the same as draining it at once: the
    messages are dispatched strictly in order, however the pops are grouped.
   */
  lemma {:induction false} DispatchAllAppend(env: Collaborators, s: Baseband, a: seq<Message>, b: seq<Message>)
    requires Dispatchable(env, s, a + b)
    ensures Dispatchable(env, s, a)
    ensures Dispatchable(env, DispatchAll(env, s, a), b)
    ensures DispatchAll(env, s, a + b) == DispatchAll(env, DispatchAll(env, s, a), b)
    decreases |a|
  {
    if a == [] {
      assert a + b == b;
    } else {
      assert (a + b)[0] == a[0] && (a + b)[1..] == a[1..] + b;
      DispatchAllAppend(env, Dispatch(env, s, a[0]), a[1..], b);
    }
  }
}
