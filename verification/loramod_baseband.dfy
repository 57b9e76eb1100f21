/**
  The LoRa modulator baseband: the glue between the sample FIFO, the
  up-channelizer, the LoRa source and the input message queue.

  The FIFO, the channelizer and the source are abstract.  Their state is the
  history of calls made to them, recorded in order in the baseband's `trace`;
  what they answer (writable room, the regions of a read or write, the
  channel rate and offset, the signal levels, the sample storage) is an opaque
  function of that history, supplied in `Collaborators`.  The message queue
  is shared with other threads, so it is passed in and out explicitly rather
  than kept inside the baseband; mutexes and queued signal connections are not
  modelled: every entry point runs to completion.
 */
module LoRaModBaseband {
  import opened MachineInts

  datatype Sample = Sample(i: int, q: int)

  /** The baseband's view of LoRaModSettings: the two fields it inspects, the rest passed through. */
  datatype Settings = Settings(bandwidthIndex: nat, inputFrequencyOffset: int, others: seq<int>)

  datatype Levels = Levels(rms: real, peak: real, numSamples: int)

  /** Two half-open index ranges into the FIFO's storage; the second is empty unless the range wraps. */
  datatype Regions = Regions(part1Begin: u32, part1End: u32, part2Begin: u32, part2End: u32)

  datatype FifoOp = Resize(size: nat) | Reset | Write(amount: nat) | Read(amount: nat)

  datatype ChannelizerOp =
    | SetChannelization(channelSampleRate: int, frequencyOffset: int)
    | SetBasebandSampleRate(sampleRate: int)
    | Pull(begin: u32, count: u32)

  datatype SourceOp =
    | ApplyChannelSettings(channelSampleRate: int, bandwidth: int, channelFrequencyOffset: int)
    | ApplySourceSettings(settings: Settings, force: bool)
    | SetSymbols(symbols: seq<int>)
    | GetLevels

  /** One call made by the baseband, or the level notification it emits. */
  datatype Call =
    | ToFifo(fifoOp: FifoOp)
    | ToChannelizer(channelizerOp: ChannelizerOp)
    | ToSource(sourceOp: SourceOp)
    | LevelChanged(levels: Levels)

  datatype Message =
    | ConfigureBaseband(settings: Settings, force: bool)
    | ConfigurePayload(symbols: seq<int>)
    | SignalNotification(sampleRate: int, centerFrequency: int)
    | Unrecognised(name: string)

  /** The collaborators' answers, and the settings tables, none of which this file defines. */
  datatype Collaborators = Collaborators(
    sizePolicy: int -> nat,                         // SampleSourceFifo::getSizePolicy
    remainder: seq<FifoOp> -> nat,                  // writable room left in the FIFO
    writeRegions: (seq<FifoOp>, nat) -> Regions,    // what a write of that many samples reserves
    readRegions: (seq<FifoOp>, nat) -> Regions,     // what a read of that many samples returns
    fifoData: seq<Call> -> seq<Sample>,             // the FIFO's sample storage
    channelSampleRate: seq<ChannelizerOp> -> int,
    channelFrequencyOffset: seq<ChannelizerOp> -> int,
    levels: seq<Call> -> Levels,                    // what the source's getLevels reports
    bandwidths: seq<int>,                           // LoRaModSettings::bandwidths
    oversampling: int)                              // LoRaModSettings::oversampling

  datatype Baseband = Baseband(
    settings: Settings,
    trace: seq<Call>,
    undeleted: seq<Message>)   // popped messages nobody handled, and so nobody deleted

  const InitialSampleRate: int := 48000

  // ---------------------------------------------------------------------
  // Each collaborator's own history
  // ---------------------------------------------------------------------

  function FifoOps(t: seq<Call>): (r: seq<FifoOp>)
    ensures |r| <= |t|
  {
    if t == [] then []
    else FifoOps(t[..|t| - 1]) + (if t[|t| - 1].ToFifo? then [t[|t| - 1].fifoOp] else [])
  }

  function ChannelizerOps(t: seq<Call>): (r: seq<ChannelizerOp>)
    ensures |r| <= |t|
  {
    if t == [] then []
    else ChannelizerOps(t[..|t| - 1]) + (if t[|t| - 1].ToChannelizer? then [t[|t| - 1].channelizerOp] else [])
  }

  lemma FifoOpsSnoc(a: seq<Call>, c: Call)
    ensures FifoOps(a + [c]) == FifoOps(a) + (if c.ToFifo? then [c.fifoOp] else [])
  {
    assert (a + [c])[..|a + [c]| - 1] == a;
  }

  lemma ChannelizerOpsSnoc(a: seq<Call>, c: Call)
    ensures ChannelizerOps(a + [c]) ==
              ChannelizerOps(a) + (if c.ToChannelizer? then [c.channelizerOp] else [])
  {
    assert (a + [c])[..|a + [c]| - 1] == a;
  }

  /** The most recent channelization the channelizer was given, if any. */
  function LastChannelization(ops: seq<ChannelizerOp>): (r: Option<(int, int)>)
  {
    if ops == [] then None
    else if ops[|ops| - 1].SetChannelization? then
      Some((ops[|ops| - 1].channelSampleRate, ops[|ops| - 1].frequencyOffset))
    else LastChannelization(ops[..|ops| - 1])
  }

  datatype Option<T> = None | Some(value: T)

  // ---------------------------------------------------------------------
  // Construction, reset, sample rate
  // ---------------------------------------------------------------------

  /** The constructor: sizes the FIFO for 48 kS/s and makes no other call. */
  function Create(env: Collaborators, defaults: Settings): (r: Baseband)
    ensures r.trace == [ToFifo(Resize(env.sizePolicy(InitialSampleRate)))]
    ensures FifoOps(r.trace) == [Resize(env.sizePolicy(InitialSampleRate))]
    ensures ChannelizerOps(r.trace) == []
    ensures r.settings == defaults && r.undeleted == []
  {
    var t := [ToFifo(Resize(env.sizePolicy(InitialSampleRate)))];
    assert t[..0] == [];
    Baseband(defaults, t, [])
  }

  /** `reset`: resets the FIFO and nothing else. */
  function ResetFifo(s: Baseband): (r: Baseband)
    ensures FifoOps(r.trace) == FifoOps(s.trace) + [Reset]
    ensures ChannelizerOps(r.trace) == ChannelizerOps(s.trace)
    ensures |r.trace| == |s.trace| + 1 && r.trace[..|s.trace|] == s.trace
    ensures r.settings == s.settings && r.undeleted == s.undeleted
  {
    var t := s.trace + [ToFifo(Reset)];
    assert t[..|t| - 1] == s.trace;
    s.(trace := t)
  }

  /** `getChannelSampleRate`: what the channelizer currently reports. */
  function GetChannelSampleRate(env: Collaborators, s: Baseband): int {
    env.channelSampleRate(ChannelizerOps(s.trace))
  }

  // ---------------------------------------------------------------------
  // Settings
  // ---------------------------------------------------------------------

  /** The channelizer is reconfigured iff the bandwidth index or the offset changes, or on force. */
  predicate Reconfigures(current: Settings, settings: Settings, force: bool) {
    || settings.bandwidthIndex != current.bandwidthIndex
    || settings.inputFrequencyOffset != current.inputFrequencyOffset
    || force
  }

  /** The channelization the settings call for: bandwidth times oversampling, at the input offset. */
  function ChannelizationFor(env: Collaborators, settings: Settings): (int, int)
    requires settings.bandwidthIndex < |env.bandwidths|
  {
    (env.bandwidths[settings.bandwidthIndex] * env.oversampling, settings.inputFrequencyOffset)
  }

  /** `applySettings`. */
  function ApplySettings(env: Collaborators, s: Baseband, settings: Settings, force: bool): (r: Baseband)
    requires Reconfigures(s.settings, settings, force) ==> settings.bandwidthIndex < |env.bandwidths|
    ensures r.settings == settings && r.undeleted == s.undeleted
    ensures Reconfigures(s.settings, settings, force) ==>
              var t1 := s.trace + [ToChannelizer(SetChannelization(ChannelizationFor(env, settings).0,
                                                                   settings.inputFrequencyOffset))];
              var ops := ChannelizerOps(t1);
              r.trace == t1 + [ToSource(ApplyChannelSettings(env.channelSampleRate(ops),
                                                             env.bandwidths[settings.bandwidthIndex],
                                                             env.channelFrequencyOffset(ops))),
                               ToSource(ApplySourceSettings(settings, force))]
    ensures !Reconfigures(s.settings, settings, force) ==>
              r.trace == s.trace + [ToSource(ApplySourceSettings(settings, force))]
  {
    var t :=
      if Reconfigures(s.settings, settings, force) then
        var thisBW := env.bandwidths[settings.bandwidthIndex];
        var t1 := s.trace + [ToChannelizer(SetChannelization(thisBW * env.oversampling, settings.inputFrequencyOffset))];
        var ops := ChannelizerOps(t1);
        t1 + [ToSource(ApplyChannelSettings(env.channelSampleRate(ops), thisBW, env.channelFrequencyOffset(ops)))]
      else
        s.trace;
    s.(trace := t + [ToSource(ApplySourceSettings(settings, force))], settings := settings)
  }

  /**
    What `applySettings` asks of the collaborators: the FIFO is left alone; the
    channelizer receives exactly one new channelization when the rule fires and
    nothing otherwise; the source always receives the settings last.
   */
  lemma ApplySettingsCalls(env: Collaborators, s: Baseband, settings: Settings, force: bool)
    requires Reconfigures(s.settings, settings, force) ==> settings.bandwidthIndex < |env.bandwidths|
    ensures var r := ApplySettings(env, s, settings, force);
            && FifoOps(r.trace) == FifoOps(s.trace)
            && r.trace[|r.trace| - 1] == ToSource(ApplySourceSettings(settings, force))
            && (Reconfigures(s.settings, settings, force) ==>
                  var (rate, offset) := ChannelizationFor(env, settings);
                  ChannelizerOps(r.trace) == ChannelizerOps(s.trace) + [SetChannelization(rate, offset)])
            && (!Reconfigures(s.settings, settings, force) ==>
                  ChannelizerOps(r.trace) == ChannelizerOps(s.trace))
  {
    var r := ApplySettings(env, s, settings, force);
    var last := ToSource(ApplySourceSettings(settings, force));
    if Reconfigures(s.settings, settings, force) {
      var t1 := r.trace[..|s.trace| + 1];
      var t2 := r.trace[..|s.trace| + 2];
      assert t1 == s.trace + [t1[|s.trace|]];
      assert t2 == t1 + [t2[|t1|]];
      assert r.trace == t2 + [last];
      FifoOpsSnoc(s.trace, t1[|s.trace|]);
      FifoOpsSnoc(t1, t2[|t1|]);
      FifoOpsSnoc(t2, last);
      ChannelizerOpsSnoc(s.trace, t1[|s.trace|]);
      ChannelizerOpsSnoc(t1, t2[|t1|]);
      ChannelizerOpsSnoc(t2, last);
    } else {
      FifoOpsSnoc(s.trace, last);
      ChannelizerOpsSnoc(s.trace, last);
    }
  }

  // ---------------------------------------------------------------------
  // Messages
  // ---------------------------------------------------------------------

  /** Whether `handleMessage` is defined on a message: the bandwidth table is indexed unchecked. */
  predicate Handleable(env: Collaborators, s: Baseband, m: Message) {
    match m
    case ConfigureBaseband(settings, force) =>
      Reconfigures(s.settings, settings, force) ==> settings.bandwidthIndex < |env.bandwidths|
    case SignalNotification(_, _) => s.settings.bandwidthIndex < |env.bandwidths|
    case _ => true
  }

  datatype Handled = Handled(next: Baseband, handled: bool)

  /** `handleMessage`: dispatch on the message's tag. */
  function HandleMessage(env: Collaborators, s: Baseband, m: Message): (r: Handled)
    requires Handleable(env, s, m)
    ensures r.handled <==> !m.Unrecognised?
    ensures !r.handled ==> r.next == s
    ensures r.next.undeleted == s.undeleted
    ensures m.ConfigureBaseband? ==> r.next == ApplySettings(env, s, m.settings, m.force)
    ensures !m.ConfigureBaseband? ==> r.next.settings == s.settings
    ensures m.ConfigurePayload? ==> r.next.trace == s.trace + [ToSource(SetSymbols(m.symbols))]
    ensures m.SignalNotification? ==>
              var t1 := s.trace + [ToFifo(Resize(env.sizePolicy(m.sampleRate))),
                                   ToChannelizer(SetBasebandSampleRate(m.sampleRate))];
              var ops := ChannelizerOps(t1);
              r.next.trace == t1 + [ToSource(ApplyChannelSettings(
                                      env.channelSampleRate(ops),
                                      env.bandwidths[s.settings.bandwidthIndex],
                                      env.channelFrequencyOffset(ops)))]
  {
    match m
    case ConfigureBaseband(settings, force) =>
      Handled(ApplySettings(env, s, settings, force), true)
    case ConfigurePayload(symbols) =>
      Handled(s.(trace := s.trace + [ToSource(SetSymbols(symbols))]), true)
    case SignalNotification(sampleRate, _) =>
      var t1 := s.trace + [ToFifo(Resize(env.sizePolicy(sampleRate))),
                           ToChannelizer(SetBasebandSampleRate(sampleRate))];
      var ops := ChannelizerOps(t1);
      Handled(s.(trace := t1 + [ToSource(ApplyChannelSettings(
                                   env.channelSampleRate(ops),
                                   env.bandwidths[s.settings.bandwidthIndex],
                                   env.channelFrequencyOffset(ops)))]), true)
    case Unrecognised(_) =>
      Handled(s, false)
  }

  /** One popped message: handled, or kept undeleted. */
  function Dispatch(env: Collaborators, s: Baseband, m: Message): Baseband
    requires Handleable(env, s, m)
  {
    var h := HandleMessage(env, s, m);
    if h.handled then h.next else h.next.(undeleted := h.next.undeleted + [m])
  }

  /** Every message in turn can be handled by the baseband the messages before it leave behind. */
  ghost predicate Dispatchable(env: Collaborators, s: Baseband, msgs: seq<Message>)
    decreases |msgs|
  {
    msgs == [] || (Handleable(env, s, msgs[0]) && Dispatchable(env, Dispatch(env, s, msgs[0]), msgs[1..]))
  }

  /** The messages dispatched one after the other, in queue order. */
  function DispatchAll(env: Collaborators, s: Baseband, msgs: seq<Message>): Baseband
    requires Dispatchable(env, s, msgs)
    decreases |msgs|
  {
    if msgs == [] then s
    else
      DispatchAll(env, Dispatch(env, s, msgs[0]), msgs[1..])
  }

  /** `handleInputMessages`: pops every queued message, front first, and dispatches it. */
  method HandleInputMessages(env: Collaborators, s: Baseband, queue: seq<Message>)
    returns (r: Baseband, rest: seq<Message>)
    requires Dispatchable(env, s, queue)
    ensures rest == []
    ensures r == DispatchAll(env, s, queue)
  {
    r := s;
    rest := queue;
    while |rest| > 0
      invariant Dispatchable(env, r, rest)
      invariant DispatchAll(env, r, rest) == DispatchAll(env, s, queue)
      decreases |rest|
    {
      var message := rest[0];
      rest := rest[1..];
      var h := HandleMessage(env, r, message);
      if h.handled {
        r := h.next;
      } else {
        r := h.next.(undeleted := h.next.undeleted + [message]);
      }
    }
  }

  // ---------------------------------------------------------------------
  // Data
  // ---------------------------------------------------------------------

  /** The FIFO keeps its promise to return read regions inside its storage and the caller's room. */
  predicate ReadFits(g: Regions, dataLength: nat, room: nat) {
    && g.part1Begin <= g.part1End && g.part1End as int <= dataLength
    && g.part2Begin <= g.part2End && g.part2End as int <= dataLength
    && (g.part1End - g.part1Begin) as int + (g.part2End - g.part2Begin) as int <= room
  }

  /** `pull`: copies the two regions the FIFO hands out, in order, to the start of `out`. */
  method PullSamples(env: Collaborators, s: Baseband, out: seq<Sample>, nbSamples: nat)
    returns (r: Baseband, out': seq<Sample>)
    requires ReadFits(env.readRegions(FifoOps(s.trace), nbSamples),
                      |env.fifoData(s.trace + [ToFifo(Read(nbSamples))])|, |out|)
    ensures r == s.(trace := s.trace + [ToFifo(Read(nbSamples))])
    ensures var g := env.readRegions(FifoOps(s.trace), nbSamples);
            var data := env.fifoData(r.trace);
            var n := (g.part1End - g.part1Begin) as int + (g.part2End - g.part2Begin) as int;
            && |out'| == |out|
            && out'[..n] == data[g.part1Begin..g.part1End] + data[g.part2Begin..g.part2End]
            && out'[n..] == out[n..]
  {
    var g := env.readRegions(FifoOps(s.trace), nbSamples);
    r := s.(trace := s.trace + [ToFifo(Read(nbSamples))]);
    var data := env.fifoData(r.trace);
    out' := out;
    if g.part1Begin != g.part1End {
      out' := CopyInto(out', 0, data, g.part1Begin as nat, g.part1End as nat);
    }
    var shift := Sub32(g.part1End, g.part1Begin);
    if g.part2Begin != g.part2End {
      out' := CopyInto(out', shift as nat, data, g.part2Begin as nat, g.part2End as nat);
    }
    assert out'[..shift] == data[g.part1Begin..g.part1End];
  }

  /** `std::copy(data + from, data + to, out + at)`. */
  method CopyInto(out: seq<Sample>, at: nat, data: seq<Sample>, from: nat, to: nat)
    returns (out': seq<Sample>)
    requires from <= to <= |data| && at + (to - from) <= |out|
    ensures |out'| == |out|
    ensures out'[at..at + (to - from)] == data[from..to]
    ensures out'[..at] == out[..at] && out'[at + (to - from)..] == out[at + (to - from)..]
  {
    out' := out;
    var i := from;
    while i < to
      invariant from <= i <= to
      invariant |out'| == |out|
      invariant forall k :: at <= k < at + (i - from) ==> out'[k] == data[from + (k - at)]
      invariant forall k :: 0 <= k < |out| && !(at <= k < at + (i - from)) ==> out'[k] == out[k]
    {
      out' := out'[at + (i - from) := data[i]];
      i := i + 1;
    }
  }

  /** `processFifo` for one region: a channelizer pull, unless the region is empty. */
  function PullRegion(begin: u32, end: u32): (r: seq<Call>)
    ensures |r| <= 1
    ensures r != [] <==> begin != end
    ensures r != [] ==> r[0] == ToChannelizer(Pull(begin, Sub32(end, begin))) && Sub32(end, begin) > 0
  {
    if begin != end then [ToChannelizer(Pull(begin, Sub32(end, begin)))] else []
  }

  /** One turn of `handleData`'s loop: reserve all the room left, then pull part 1 and part 2. */
  function DrainStep(env: Collaborators, t: seq<Call>): (r: seq<Call>)
    ensures 1 <= |r| <= 3 && r[0] == ToFifo(Write(env.remainder(FifoOps(t))))
    ensures forall i :: 0 <= i < |r| ==> DrainCall(r[i])
  {
    var n := env.remainder(FifoOps(t));
    var g := env.writeRegions(FifoOps(t), n);
    [ToFifo(Write(n))] + PullRegion(g.part1Begin, g.part1End) + PullRegion(g.part2Begin, g.part2End)
  }

  /** Reserving all the room left in a FIFO with history `h` leaves less room. */
  ghost predicate WriteShrinks(env: Collaborators, h: seq<FifoOp>) {
    env.remainder(h) > 0 ==> env.remainder(h + [Write(env.remainder(h))]) < env.remainder(h)
  }

  /** The FIFO's side of the bargain, whatever its history. */
  ghost predicate FifoDrains(env: Collaborators) {
    forall h: seq<FifoOp> :: WriteShrinks(env, h)
  }

  lemma DrainStepFifoOps(env: Collaborators, t: seq<Call>)
    ensures FifoOps(t + DrainStep(env, t)) == FifoOps(t) + [Write(env.remainder(FifoOps(t)))]
  {
    var n := env.remainder(FifoOps(t));
    var g := env.writeRegions(FifoOps(t), n);
    var p1 := PullRegion(g.part1Begin, g.part1End);
    var p2 := PullRegion(g.part2Begin, g.part2End);
    var t1 := t + [ToFifo(Write(n))];
    FifoOpsSnoc(t, ToFifo(Write(n)));
    var t2 := if p1 == [] then t1 else t1 + [p1[0]];
    if p1 != [] {
      FifoOpsSnoc(t1, p1[0]);
      assert p1 == [p1[0]];
    }
    assert t2 == t1 + p1;
    assert FifoOps(t2) == FifoOps(t1);
    if p2 != [] {
      FifoOpsSnoc(t2, p2[0]);
      assert p2 == [p2[0]];
    } else {
      assert t2 + p2 == t2;
    }
    assert FifoOps(t2 + p2) == FifoOps(t2);
    assert t + DrainStep(env, t) == t2 + p2;
  }

  lemma AppendAssoc<T>(a: seq<T>, b: seq<T>, c: seq<T>)
    ensures a + (b + c) == a + b + c
  {
  }

  /** A call `handleData`'s loop may make: reserving FIFO room, or pulling a non-empty region. */
  predicate DrainCall(c: Call) {
    || (c.ToFifo? && c.fifoOp.Write?)
    || (c.ToChannelizer? && c.channelizerOp.Pull? && c.channelizerOp.count > 0)
  }

  /** Calls `handleData`'s loop makes before it stops, `pending` telling whether messages are queued. */
  function Drain(env: Collaborators, t: seq<Call>, pending: bool): (r: seq<Call>)
    requires FifoDrains(env)
    ensures pending ==> r == []
    ensures !pending ==> env.remainder(FifoOps(t + r)) == 0
    ensures forall i :: 0 <= i < |r| ==> DrainCall(r[i])
    decreases env.remainder(FifoOps(t))
  {
    if pending || env.remainder(FifoOps(t)) == 0 then
      assert t + [] == t;
      []
    else
      var step := DrainStep(env, t);
      DrainStepFifoOps(env, t);
      assert WriteShrinks(env, FifoOps(t));
      var rest := Drain(env, t + step, pending);
      AppendAssoc(t, step, rest);
      step + rest
  }

  lemma DrainUnfold(env: Collaborators, t: seq<Call>)
    requires FifoDrains(env) && env.remainder(FifoOps(t)) > 0
    ensures Drain(env, t, false) == DrainStep(env, t) + Drain(env, t + DrainStep(env, t), false)
  {
  }

  lemma DrainStops(env: Collaborators, t: seq<Call>, pending: bool)
    requires FifoDrains(env) && (pending || env.remainder(FifoOps(t)) == 0)
    ensures Drain(env, t, pending) == []
  {
  }

  /** One turn of `handleData`'s loop, as written: reserve, then pull each non-empty part in order. */
  method DrainOnce(env: Collaborators, t: seq<Call>, remainder: nat) returns (t': seq<Call>)
    requires remainder == env.remainder(FifoOps(t))
    ensures t' == t + DrainStep(env, t)
    ensures FifoOps(t') == FifoOps(t) + [Write(remainder)]
  {
    var g := env.writeRegions(FifoOps(t), remainder);
    t' := t + [ToFifo(Write(remainder))];
    if g.part1Begin != g.part1End {
      t' := t' + [ToChannelizer(Pull(g.part1Begin, Sub32(g.part1End, g.part1Begin)))];
    }
    if g.part2Begin != g.part2End {
      t' := t' + [ToChannelizer(Pull(g.part2Begin, Sub32(g.part2End, g.part2Begin)))];
    }
    DrainStepFifoOps(env, t);
  }

  /** The calls `handleData` makes end with the one level notification, after the drained calls. */
  lemma LevelsLast(env: Collaborators, base: seq<Call>, pending: bool)
    requires FifoDrains(env)
    ensures var t := base + Drain(env, base, pending);
            var u := t + [ToSource(GetLevels), LevelChanged(env.levels(t))];
            && (pending ==> u == base + [ToSource(GetLevels), LevelChanged(env.levels(base))])
            && (!pending ==> env.remainder(FifoOps(u[..|u| - 2])) == 0)
            && |u| >= |base| + 2 && u[..|base|] == base
            && u[|u| - 1].LevelChanged?
            && forall i :: |base| <= i < |u| - 1 ==> !u[i].LevelChanged?
  {
    var d := Drain(env, base, pending);
    var t := base + d;
    var u := t + [ToSource(GetLevels), LevelChanged(env.levels(t))];
    assert u[..|u| - 2] == t;
    if pending {
      assert t == base;
    }
    forall i | |base| <= i < |u| - 1
      ensures !u[i].LevelChanged?
    {
      if i < |t| {
        assert u[i] == d[i - |base|];
        assert DrainCall(d[i - |base|]);
      }
    }
  }

  /** `handleData`: fills the FIFO through the channelizer, then emits the levels once. */
  method HandleData(env: Collaborators, s: Baseband, queue: seq<Message>) returns (r: Baseband)
    requires FifoDrains(env)
    ensures var drained := Drain(env, s.trace, |queue| > 0);
            var t := s.trace + drained;
            r == s.(trace := t + [ToSource(GetLevels), LevelChanged(env.levels(t))])
    // With a message pending the FIFO is not touched at all.
    ensures |queue| > 0 ==>
              r.trace == s.trace + [ToSource(GetLevels), LevelChanged(env.levels(s.trace))]
    // Otherwise the loop stops only once the FIFO has no room left.
    ensures |queue| == 0 ==> env.remainder(FifoOps(r.trace[..|r.trace| - 2])) == 0
    // Exactly one level notification, and it comes last.
    ensures |r.trace| >= |s.trace| + 2 && r.trace[..|s.trace|] == s.trace
    ensures r.trace[|r.trace| - 1].LevelChanged?
    ensures forall i :: |s.trace| <= i < |r.trace| - 1 ==> !r.trace[i].LevelChanged?
  {
    var t := s.trace;
    ghost var drained: seq<Call> := [];
    ghost var pending := |queue| > 0;
    var remainder := env.remainder(FifoOps(t));
    while remainder > 0 && |queue| == 0
      invariant remainder == env.remainder(FifoOps(t))
      invariant t == s.trace + drained
      invariant drained + Drain(env, t, pending) == Drain(env, s.trace, pending)
      decreases remainder
    {
      ghost var before := t;
      t := DrainOnce(env, t, remainder);
      DrainUnfold(env, before);
      AppendAssoc(drained, DrainStep(env, before), Drain(env, t, pending));
      AppendAssoc(s.trace, drained, DrainStep(env, before));
      drained := drained + DrainStep(env, before);
      assert WriteShrinks(env, FifoOps(before));
      remainder := env.remainder(FifoOps(t));
    }
    DrainStops(env, t, pending);
    assert drained + [] == drained;
    var levels := env.levels(t);
    r := s.(trace := t + [ToSource(GetLevels), LevelChanged(levels)]);
    LevelsLast(env, s.trace, pending);
  }
}
