/** The controller of a CiA 402 drive (section 10 of CiA DSP 402 v2.0): it derives the state
    of the drive from the statusword and asks for transitions through the controlword,
    while the drive may report a new state at any moment. */
module DriveStatusMachine {
  import opened Wrappers

  type word = bv16

  datatype DriveState =
    | NotReadyToSwitchOn
    | SwitchOnDisabled
    | ReadyToSwitchOn
    | SwitchedOn
    | OperationEnabled
    | QuickStopActive
    | FaultReactionActive
    | Fault

  datatype DriveTransition = Shutdown | SwitchOn | DisableVoltage | QuickStop | EnableOperation | FaultReset

  /** An alias: both commands have the same word. */
  const DISABLE_OPERATION := SwitchOn

  function CommandWord(t: DriveTransition): word {
    match t
    case Shutdown => 0x0006
    case SwitchOn => 0x0007
    case DisableVoltage => 0x0000
    case QuickStop => 0x0002
    case EnableOperation => 0x000F
    case FaultReset => 0x0080
  }

  /** The bits of the controlword that command the state machine. */
  const COMMAND_BITS: word := 0x008F

  /** The bits of the statusword whose change is noticed: those of the states that can be
      asked for. */
  const STATE_BITS: word := 0x0067

  const FAULT_BIT: word := 0x0008

  function ParseDriveState(w: word): DriveState {
    var b0, b1, b2, b3 := w & 0x01 != 0, w & 0x02 != 0, w & 0x04 != 0, w & 0x08 != 0;
    var b5, b6 := w & 0x20 != 0, w & 0x40 != 0;
    if !b0 && !b1 && !b2 && !b3 && !b6 then NotReadyToSwitchOn
    else if !b0 && !b1 && !b2 && !b3 && b6 then SwitchOnDisabled
    else if b0 && !b1 && !b2 && !b3 && b5 && !b6 then ReadyToSwitchOn
    else if b0 && b1 && !b2 && !b3 && b5 && !b6 then SwitchedOn
    else if b0 && b1 && b2 && !b3 && b5 && !b6 then OperationEnabled
    else if b0 && b1 && b2 && !b3 && !b5 && !b6 then QuickStopActive
    else if b0 && b1 && b2 && b3 && !b6 then FaultReactionActive
    else if !b0 && !b1 && !b2 && b3 && !b6 then Fault
    else NotReadyToSwitchOn
  }

  /** The coding of the states, for every word: bits 4, 7 and above do not matter, and bit 5 only in
      the four states that it is a part of. */
  lemma StateTable(w: word)
    ensures ParseDriveState(w) == SwitchOnDisabled <==> w & 0x4F == 0x40
    ensures ParseDriveState(w) == ReadyToSwitchOn <==> w & 0x6F == 0x21
    ensures ParseDriveState(w) == SwitchedOn <==> w & 0x6F == 0x23
    ensures ParseDriveState(w) == OperationEnabled <==> w & 0x6F == 0x27
    ensures ParseDriveState(w) == QuickStopActive <==> w & 0x6F == 0x07
    ensures ParseDriveState(w) == FaultReactionActive <==> w & 0x4F == 0x0F
    ensures ParseDriveState(w) == Fault <==> w & 0x4F == 0x08
  {
  }

  function StateToControlword(s: DriveState): word {
    match s
    case SwitchOnDisabled => CommandWord(DisableVoltage)
    case ReadyToSwitchOn => CommandWord(Shutdown)
    case SwitchedOn => CommandWord(SwitchOn)
    case OperationEnabled => CommandWord(EnableOperation)
    case QuickStopActive => CommandWord(QuickStop)
    case _ => 0x0000
  }

  function Command(w: word): word { w & COMMAND_BITS }

  /** The bits of a controlword that are not the state machine's. */
  function Others(w: word): word { w & !COMMAND_BITS }

  function UpdateStateBits(stored: word, requested: word): word {
    (stored & !COMMAND_BITS) | requested
  }

  function NextState(s: DriveState, t: DriveTransition): Option<DriveState> {
    match (s, t)
    case (SwitchOnDisabled, Shutdown) => Some(ReadyToSwitchOn)
    case (ReadyToSwitchOn, SwitchOn) => Some(SwitchedOn)
    case (SwitchedOn, EnableOperation) => Some(OperationEnabled)
    case (OperationEnabled, SwitchOn) => Some(SwitchedOn)
    case (SwitchedOn, Shutdown) => Some(ReadyToSwitchOn)
    case (ReadyToSwitchOn, DisableVoltage) => Some(SwitchOnDisabled)
    case (OperationEnabled, Shutdown) => Some(ReadyToSwitchOn)
    case (OperationEnabled, DisableVoltage) => Some(SwitchOnDisabled)
    case (SwitchedOn, DisableVoltage) => Some(SwitchOnDisabled)
    case (OperationEnabled, QuickStop) => Some(QuickStopActive)
    case (QuickStopActive, DisableVoltage) => Some(SwitchOnDisabled)
    case (Fault, FaultReset) => Some(SwitchOnDisabled)
    case (QuickStopActive, EnableOperation) => Some(OperationEnabled)
    case _ => None
  }

  function ShortestPath(from: DriveState, to: DriveState): Option<seq<DriveTransition>> {
    match (from, to)
    case (SwitchOnDisabled, ReadyToSwitchOn) => Some([Shutdown])
    case (SwitchOnDisabled, SwitchedOn) => Some([Shutdown, SwitchOn])
    case (SwitchOnDisabled, OperationEnabled) => Some([Shutdown, SwitchOn, EnableOperation])
    case (ReadyToSwitchOn, SwitchedOn) => Some([SwitchOn])
    case (ReadyToSwitchOn, OperationEnabled) => Some([SwitchOn, EnableOperation])
    case (SwitchedOn, OperationEnabled) => Some([EnableOperation])
    case (OperationEnabled, SwitchedOn) => Some([DISABLE_OPERATION])
    case (OperationEnabled, ReadyToSwitchOn) => Some([Shutdown])
    case (OperationEnabled, SwitchOnDisabled) => Some([DisableVoltage])
    case (SwitchedOn, ReadyToSwitchOn) => Some([Shutdown])
    case (SwitchedOn, SwitchOnDisabled) => Some([DisableVoltage])
    case (ReadyToSwitchOn, SwitchOnDisabled) => Some([DisableVoltage])
    case (QuickStopActive, SwitchOnDisabled) => Some([DisableVoltage])
    case _ => None
  }

  // ---------------------------------------------------------------- the two tables

  /** How far a state is up the chain that leads to an enabled operation. */
  function Height(s: DriveState): Option<nat> {
    match s
    case SwitchOnDisabled => Some(0)
    case ReadyToSwitchOn => Some(1)
    case SwitchedOn => Some(2)
    case OperationEnabled => Some(3)
    case _ => None
  }

  /** The place on the chain that a command asks for. */
  function Aim(t: DriveTransition): Option<nat> {
    match t
    case DisableVoltage => Some(0)
    case Shutdown => Some(1)
    case SwitchOn => Some(2)
    case EnableOperation => Some(3)
    case _ => None
  }

  /** On the chain a command leads one place up or any number down, to the place it asks for. Apart
      from that there is a quick stop of an enabled operation, the two ways out of it, and the
      reset of a fault. */
  lemma TransitionTable(s: DriveState, t: DriveTransition)
    ensures NextState(s, t).Some? <==>
            || (Height(s).Some? && Aim(t).Some? &&
                (Aim(t).value < Height(s).value || Aim(t).value == Height(s).value + 1))
            || (s, t) in {(OperationEnabled, QuickStop), (QuickStopActive, DisableVoltage),
                          (QuickStopActive, EnableOperation), (Fault, FaultReset)}
    ensures NextState(s, t).Some? && Aim(t).Some? ==> Height(NextState(s, t).value) == Aim(t)
    ensures NextState(s, t).Some? && t == QuickStop ==> NextState(s, t).value == QuickStopActive
    ensures NextState(s, t).Some? && t == FaultReset ==> NextState(s, t).value == SwitchOnDisabled
  {
  }

  /** The controlword that goes out has the bit pattern of its command. */
  lemma CommandPattern(stored: word, t: DriveTransition)
    ensures var w := UpdateStateBits(stored, CommandWord(t));
            && (w & 0x80 != 0 <==> t == FaultReset)
            && (t == Shutdown <==> w & 0x87 == 0x06)
            && (t == SwitchOn <==> w & 0x8F == 0x07)
            && (t == EnableOperation <==> w & 0x8F == 0x0F)
            && (t == QuickStop <==> w & 0x86 == 0x02)
            && (t == DisableVoltage <==> w & 0x82 == 0x00)
            && w & 0xFF70 == stored & 0xFF70
  {
  }

  /** Where a sequence of commands leads by the transition table. */
  function Follow(s: DriveState, ts: seq<DriveTransition>): Option<DriveState>
    decreases |ts|
  {
    if ts == [] then Some(s)
    else
      match NextState(s, ts[0])
      case None => None
      case Some(s') => Follow(s', ts[1..])
  }

  /** The chain that `requestState` traverses in both directions. */
  predicate OnChain(s: DriveState) {
    s in {SwitchOnDisabled, ReadyToSwitchOn, SwitchedOn, OperationEnabled}
  }

  /** Each listed path leads where it should and no other sequence of commands gets there
      in fewer steps; the paths listed are those along the chain, and the one out of a
      quick stop. */
  lemma PathsAreShortest(from: DriveState, to: DriveState, ts: seq<DriveTransition>)
    ensures ShortestPath(from, to).Some? <==>
            from != to && ((OnChain(from) && OnChain(to)) || (from == QuickStopActive && to == SwitchOnDisabled))
    ensures ShortestPath(from, to).Some? ==>
              && Follow(from, ShortestPath(from, to).value) == Some(to)
              && (Follow(from, ts) == Some(to) ==> |ShortestPath(from, to).value| <= |ts|)
  {
    if ShortestPath(from, to).Some? { PathLeads(from, to); }
    if |ts| == 1 {
      FollowOne(from, ts[0]);
      assert ts == [ts[0]];
    } else if |ts| == 2 && NextState(from, ts[0]).Some? {
      FollowOne(NextState(from, ts[0]).value, ts[1]);
      assert ts[1..] == [ts[1]];
    }
  }

  lemma FollowOne(s: DriveState, t: DriveTransition)
    ensures Follow(s, [t]) == NextState(s, t)
  {
    assert [t][1..] == [];
  }

  lemma PathLeads(from: DriveState, to: DriveState)
    requires ShortestPath(from, to).Some?
    ensures Follow(from, ShortestPath(from, to).value) == Some(to)
  {
    var path := ShortestPath(from, to).value;
    assert |path| >= 1;
    if |path| == 1 {
      assert path[1..] == [];
    } else if |path| == 2 {
      assert path[1..] == [path[1]] && path[1..][1..] == [];
    } else {
      assert path[1..] == [path[1], path[2]] && path[1..][1..] == [path[2]] && path[1..][1..][1..] == [];
    }
  }

  /** Where a command leads does not depend on the state it is issued from. */
  lemma DestinationByCommand(s: DriveState, s': DriveState, t: DriveTransition)
    ensures NextState(s, t).Some? && NextState(s', t).Some? ==> NextState(s, t) == NextState(s', t)
  {
  }

  // ---------------------------------------------------------------- the stored words

  /** The stored command is that of the reported state. */
  predicate Coherent(control: word, status: word) {
    Command(control) == StateToControlword(ParseDriveState(status))
  }

  /** The controlword after a report. */
  function Updated(control: word, prev: word, status: word): word {
    if prev & STATE_BITS != status & STATE_BITS
    then UpdateStateBits(control, StateToControlword(ParseDriveState(status)))
    else control
  }

  lemma UpdateStateBitsFields(stored: word, requested: word)
    requires requested & !COMMAND_BITS == 0
    ensures Command(UpdateStateBits(stored, requested)) == requested
    ensures Others(UpdateStateBits(stored, requested)) == Others(stored)
  {
  }

  /** The state of a statusword depends on its state bits and the fault bit. */
  lemma ParseDependsOn(v: word, w: word)
    requires v & (STATE_BITS | FAULT_BIT) == w & (STATE_BITS | FAULT_BIT)
    ensures ParseDriveState(v) == ParseDriveState(w)
  {
    assert v & 0x01 == w & 0x01 && v & 0x02 == w & 0x02 && v & 0x04 == w & 0x04 && v & 0x08 == w & 0x08;
    assert v & 0x20 == w & 0x20 && v & 0x40 == w & 0x40;
  }

  lemma CommandWordFields(stored: word, t: DriveTransition)
    ensures Command(UpdateStateBits(stored, CommandWord(t))) == CommandWord(t)
    ensures Others(UpdateStateBits(stored, CommandWord(t))) == Others(stored)
  {
  }

  lemma UpdateKeepsOthers(control: word, prev: word, status: word)
    ensures Others(Updated(control, prev, status)) == Others(control)
  {
    UpdateStateBitsFields(control, StateToControlword(ParseDriveState(status)));
  }

  /** The reports that go unnoticed although they change the command that belongs to the
      state: the fault bit alone toggles, in a state with a command of its own. */
  predicate Unnoticed(prev: word, status: word) {
    && prev & STATE_BITS == status & STATE_BITS
    && prev & FAULT_BIT != status & FAULT_BIT
    && status & STATE_BITS in {0x21, 0x23, 0x27, 0x07}
  }

  /** A report keeps the stored words coherent exactly when it is noticed or need not be. */
  lemma UpdateKeepsCoherence(control: word, prev: word, status: word)
    requires Coherent(control, prev)
    ensures Coherent(Updated(control, prev, status), status) <==> !Unnoticed(prev, status)
  {
    if prev & STATE_BITS != status & STATE_BITS {
      UpdateStateBitsFields(control, StateToControlword(ParseDriveState(status)));
    } else if prev & FAULT_BIT == status & FAULT_BIT {
      assert prev & (STATE_BITS | FAULT_BIT) == status & (STATE_BITS | FAULT_BIT);
      ParseDependsOn(prev, status);
    }
  }

  /** A drive that falls into a fault reaction out of an enabled operation is such a report:
      the stored word goes on commanding to enable the operation. */
  lemma FaultReactionGoesUnnoticed()
    ensures Coherent(0x000F, 0x0027) && ParseDriveState(0x0027) == OperationEnabled
    ensures ParseDriveState(0x002F) == FaultReactionActive
    ensures Updated(0x000F, 0x0027, 0x002F) == 0x000F && !Coherent(0x000F, 0x002F)
  {
  }

  /** Sending a coherent word again asks for no transition of the table. */
  lemma CoherentWordIsIdle(control: word, status: word, t: DriveTransition)
    requires Coherent(control, status) && CommandWord(t) == Command(control)
    ensures NextState(ParseDriveState(status), t).None?
  {
  }

  datatype Report = Status(status: word) | Mode(control: word)

  /** Controlword and statusword after reports and writes. */
  function Track(control: word, status: word, reports: seq<Report>): (word, word)
    decreases |reports|
  {
    if reports == [] then (control, status)
    else
      match reports[0]
      case Status(w) => Track(Updated(control, status, w), w, reports[1..])
      case Mode(c) => Track(c, status, reports[1..])
  }

  /** Writes that leave the command bits alone, and reports without the fault bit. */
  predicate Ordinary(control: word, status: word, reports: seq<Report>)
    decreases |reports|
  {
    reports != [] ==>
      match reports[0]
      case Status(w) => w & FAULT_BIT == 0 && Ordinary(Updated(control, status, w), w, reports[1..])
      case Mode(c) => Command(c) == Command(control) && Ordinary(c, status, reports[1..])
  }

  /** From reset, over any run of ordinary reports and writes, the stored words are
      coherent. */
  lemma {:induction false} CoherenceLasts(control: word, status: word, reports: seq<Report>)
    requires Coherent(control, status) && status & FAULT_BIT == 0 && Ordinary(control, status, reports)
    ensures var (c, s) := Track(control, status, reports); Coherent(c, s)
    decreases |reports|
  {
    if reports != [] {
      match reports[0]
      case Status(w) =>
        UpdateKeepsCoherence(control, status, w);
        CoherenceLasts(Updated(control, status, w), w, reports[1..]);
      case Mode(c) =>
        CoherenceLasts(c, status, reports[1..]);
    }
  }

  lemma CoherentFromReset(reports: seq<Report>)
    requires Ordinary(0, 0, reports)
    ensures var (c, s) := Track(0, 0, reports);
            && Coherent(c, s)
            && forall t | CommandWord(t) == Command(c) :: NextState(ParseDriveState(s), t).None?
  {
    CoherenceLasts(0, 0, reports);
    var (c, s) := Track(0, 0, reports);
    forall t | CommandWord(t) == Command(c) ensures NextState(ParseDriveState(s), t).None? {
      CoherentWordIsIdle(c, s, t);
    }
  }

  // ---------------------------------------------------------------- the drive and the bus

  /** A statusword of a state; the bits that the state leaves open are whatever they are. */
  function StatusWord(s: DriveState, others: word): word {
    var own: word := match s
      case NotReadyToSwitchOn => 0x00
      case SwitchOnDisabled => 0x40
      case ReadyToSwitchOn => 0x21
      case SwitchedOn => 0x23
      case OperationEnabled => 0x27
      case QuickStopActive => 0x07
      case FaultReactionActive => 0x0F
      case Fault => 0x08;
    var coded := s in {ReadyToSwitchOn, SwitchedOn, OperationEnabled, QuickStopActive};
    own | (others & if coded then 0xFF90 else 0xFFB0)
  }

  /** The command in a controlword. */
  function Decode(w: word): Option<DriveTransition> {
    var c := Command(w);
    if c == 0x06 then Some(Shutdown)
    else if c == 0x07 then Some(SwitchOn)
    else if c == 0x00 then Some(DisableVoltage)
    else if c == 0x02 then Some(QuickStop)
    else if c == 0x0F then Some(EnableOperation)
    else if c == 0x80 then Some(FaultReset)
    else None
  }

  lemma StatusWordParses(s: DriveState, others: word)
    ensures ParseDriveState(StatusWord(s, others)) == s
  {
  }

  lemma CommandDecodes(stored: word, t: DriveTransition)
    ensures Decode(UpdateStateBits(stored, CommandWord(t))) == Some(t)
  {
    UpdateStateBitsFields(stored, CommandWord(t));
  }

  /** A transition of the table is always noticed, so that it notifies who awaits it. */
  lemma TransitionIsNoticed(s: DriveState, t: DriveTransition, others: word)
    requires NextState(s, t).Some?
    ensures StatusWord(s, others) & STATE_BITS != StatusWord(NextState(s, t).value, others) & STATE_BITS
  {
  }

  /** A moment at which the read thread may run: between two steps of a request, as a
      command goes out, or while the caller awaits a notification. */
  datatype Chance = Passing | Sending(w: word) | Awaiting

  /** What happens at such a moment: reports arrive, and the step succeeds or fails. */
  datatype Moment = Moment(reports: seq<word>, ok: bool)

  /** A drive that changes state only by the table, and answers in time. `due` says after how
      many more moments it reports its state, if it has something to report; an await lasts
      until then. `latencies` are those of its answers to the commands to come: 0 is while the
      command is on its way out, before it is stored. */
  datatype Drive = Drive(actual: DriveState, others: word, due: Option<nat>, latencies: seq<nat>)

  function Latency(latencies: seq<nat>, i: nat): nat { if i < |latencies| then latencies[i] else 0 }

  function Later(latencies: seq<nat>, i: nat): seq<nat> { if i < |latencies| then latencies[i..] else [] }

  lemma LaterLatency(latencies: seq<nat>, i: nat)
    ensures Latency(Later(latencies, i), 0) == Latency(latencies, i)
    ensures Later(Later(latencies, i), 1) == Later(latencies, i + 1)
  {
  }

  /** The moment between the look at the state and the registration of the await: a report
      that comes then notifies nobody. */
  const GAP: nat := 2

  /** None of the first `n` answers falls into the gap. */
  predicate MissesGap(latencies: seq<nat>, n: nat) {
    forall i | 0 <= i < n :: Latency(latencies, i) != GAP
  }

  /** The answer with this index is the first to fall into the gap. */
  predicate MissedAt(latencies: seq<nat>, i: int) {
    i >= 0 && MissesGap(latencies, i) && Latency(latencies, i) == GAP
  }

  /** Either an obedient drive, or one that does anything at any moment, as does the bus. */
  datatype Peer = Unruly(future: seq<Moment>) | Obedient(drive: Drive)

  function React(p: Peer, chance: Chance): (Peer, Moment) {
    match p
    case Unruly(future) =>
      if future == [] then (p, Moment([], false)) else (Unruly(future[1..]), future[0])
    case Obedient(d) =>
      match chance
      case Sending(w) =>
        var t := Decode(w);
        if t.Some? && NextState(d.actual, t.value).Some? then
          var d' := d.(actual := NextState(d.actual, t.value).value, latencies := Later(d.latencies, 1));
          var latency := Latency(d.latencies, 0);
          if latency == 0 then (Obedient(d'.(due := None)), Moment([StatusWord(d'.actual, d'.others)], true))
          else (Obedient(d'.(due := Some(latency - 1))), Moment([], true))
        else (p, Moment([], true))
      case Passing =>
        if d.due.None? then (p, Moment([], true))
        else if d.due.value > 0 then (Obedient(d.(due := Some(d.due.value - 1))), Moment([], true))
        else (Obedient(d.(due := None)), Moment([StatusWord(d.actual, d.others)], true))
      case Awaiting =>
        if d.due.None? then (p, Moment([], false))
        else (Obedient(d.(due := None)), Moment([StatusWord(d.actual, d.others)], true))
  }

  lemma DriveObeys(d: Drive, stored: word, t: DriveTransition)
    requires NextState(d.actual, t).Some?
    ensures var (p, moment) := React(Obedient(d), Sending(UpdateStateBits(stored, CommandWord(t))));
            var latency := Latency(d.latencies, 0);
            && p.Obedient? && Some(p.drive.actual) == NextState(d.actual, t) && moment.ok
            && p.drive.latencies == Later(d.latencies, 1) && p.drive.others == d.others
            && (if latency == 0 then
                  p.drive.due == None && moment.reports == [StatusWord(p.drive.actual, d.others)]
                else
                  p.drive.due == Some(latency - 1) && moment.reports == [])
  {
    hide UpdateStateBits, CommandWord, Decode, StatusWord;
    CommandDecodes(stored, t);
  }

  /** The words after some reports. */
  function Reported(control: word, status: word, reports: seq<word>): (word, word) {
    if reports == [] then (control, status)
    else
      var n := |reports| - 1;
      var (c, s) := Reported(control, status, reports[..n]);
      (Updated(c, s, reports[n]), reports[n])
  }

  lemma {:induction false} ReportsKeepOthers(control: word, status: word, reports: seq<word>)
    ensures Others(Reported(control, status, reports).0) == Others(control)
  {
    hide Others, Updated;
    if reports != [] {
      var n := |reports| - 1;
      ReportsKeepOthers(control, status, reports[..n]);
      var (c, s) := Reported(control, status, reports[..n]);
      UpdateKeepsOthers(c, s, reports[n]);
    }
  }

  lemma NoReport(control: word, status: word)
    ensures Reported(control, status, []) == (control, status)
  {
  }

  lemma OneReport(control: word, status: word, report: word)
    ensures Reported(control, status, []) == (control, status)
    ensures Reported(control, status, [report]) == (Updated(control, status, report), report)
  {
    assert [report][..0] == [];
  }

  /** What passes by itself: an obedient drive reports when it is time to, and changes nothing
      when it has nothing to report. */
  lemma DrivePasses(d: Drive, control: word, status: word)
    ensures var (p, moment) := React(Obedient(d), Passing);
            var report := StatusWord(d.actual, d.others);
            && p == Obedient(d.(due := if d.due.None? || d.due.value == 0 then None else Some(d.due.value - 1)))
            && Reported(control, status, moment.reports) ==
               if d.due == Some(0) then (Updated(control, status, report), report) else (control, status)
  {
    hide StatusWord, Updated;
    OneReport(control, status, StatusWord(d.actual, d.others));
  }

  /** An await lasts until the report that is due. */
  lemma DriveIsAwaited(d: Drive, control: word, status: word)
    ensures var (p, moment) := React(Obedient(d), Awaiting);
            var report := StatusWord(d.actual, d.others);
            && p == Obedient(d.(due := None)) && (moment.ok <==> d.due.Some?)
            && Reported(control, status, moment.reports) ==
               if d.due.Some? then (Updated(control, status, report), report) else (control, status)
  {
    hide StatusWord, Updated;
    OneReport(control, status, StatusWord(d.actual, d.others));
  }

  /** The command that leads to a state is that of the state, but for the reset of a fault. */
  lemma CommandOfDestination(s: DriveState, t: DriveTransition)
    requires NextState(s, t).Some?
    ensures CommandWord(t) == StateToControlword(NextState(s, t).value) <==> t != FaultReset
  {
  }

  lemma TransitionChangesBits(v: word, w: word, t: DriveTransition)
    requires NextState(ParseDriveState(v), t) == Some(ParseDriveState(w))
    ensures v & STATE_BITS != w & STATE_BITS
  {
  }

  /** The report of a transition takes effect on the stored command. */
  lemma ReportUpdates(control: word, v: word, w: word, t: DriveTransition)
    requires NextState(ParseDriveState(v), t) == Some(ParseDriveState(w))
    ensures Coherent(Updated(control, v, w), w)
  {
    hide ParseDriveState, NextState;
    TransitionChangesBits(v, w, t);
    StateWordIsCommand(ParseDriveState(w));
    UpdateStateBitsFields(control, StateToControlword(ParseDriveState(w)));
  }

  lemma StateWordIsCommand(s: DriveState)
    ensures StateToControlword(s) & !COMMAND_BITS == 0
  {
  }

  /** What the report of a transition does, before and after the command is stored. */
  lemma ReportOfTransition(control: word, requested: word, v: word, t: DriveTransition, w: word, others: word)
    requires NextState(ParseDriveState(v), t).Some? && Command(requested) == CommandWord(t)
    requires w == StatusWord(NextState(ParseDriveState(v), t).value, others)
    ensures Reported(control, v, [w]).1 == w && Reported(control, v, []).1 == v
    ensures Coherent(Updated(requested, v, w), w)
    ensures Coherent(requested, w) <==> t != FaultReset
    ensures Some(ParseDriveState(w)) == NextState(ParseDriveState(v), t)
  {
    hide NextState, ParseDriveState, StatusWord, Updated, Command, CommandWord, StateToControlword, Reported;
    StatusWordParses(NextState(ParseDriveState(v), t).value, others);
    OneReport(control, v, w);
    ReportUpdates(requested, v, w, t);
    CommandOfDestination(ParseDriveState(v), t);
  }

  lemma PathsResetNothing(from: DriveState, to: DriveState, k: nat)
    requires k < |Path(from, to)|
    ensures Path(from, to)[k] != FaultReset
  {
  }

  lemma NoSelfTransition(s: DriveState, t: DriveTransition)
    ensures NextState(s, t) != Some(s)
  {
  }

  /** A command that went out, and the state the request had sampled before. */
  datatype Issue = Issue(sampled: DriveState, transition: DriveTransition, word: word)

  /** The path `requestState` takes, nothing if it is there or knows no way. */
  function Path(from: DriveState, to: DriveState): seq<DriveTransition> {
    if from != to && ShortestPath(from, to).Some? then ShortestPath(from, to).value else []
  }

  /** A command issued while the controlword had `others` outside the command bits. */
  predicate Proper(c: Issue, control: word) {
    && NextState(c.sampled, c.transition).Some?
    && Command(c.word) == CommandWord(c.transition)
    && Others(c.word) == Others(control)
  }

  /** Since some moment, the commands issued were the first ones of a path, and proper. */
  predicate IssuedAlong(before: seq<Issue>, now: seq<Issue>, path: seq<DriveTransition>, control: word) {
    && |before| <= |now| <= |before| + |path|
    && now[..|before|] == before
    && forall i | |before| <= i < |now| :: now[i].transition == path[i - |before|] && Proper(now[i], control)
  }

  lemma NoneIssued(issued: seq<Issue>, path: seq<DriveTransition>, control: word)
    ensures IssuedAlong(issued, issued, path, control)
  {
  }

  lemma OthersGiveTheSame(before: seq<Issue>, now: seq<Issue>, path: seq<DriveTransition>, v: word, w: word)
    requires IssuedAlong(before, now, path, v) && Others(v) == Others(w)
    ensures IssuedAlong(before, now, path, w)
  {
    hide Others, Command, CommandWord, NextState;
  }

  lemma OneMoreIssued(start: seq<Issue>, before: seq<Issue>, now: seq<Issue>, path: seq<DriveTransition>, v: word,
                      w: word)
    requires IssuedAlong(start, before, path, w) && |before| < |start| + |path| && Others(v) == Others(w)
    requires now == before ||
             exists c :: now == before + [c] && c.transition == path[|before| - |start|] && Proper(c, v)
    ensures IssuedAlong(start, now, path, w)
  {
    hide Others, Command, CommandWord, NextState;
    if now != before {
      var c :| now == before + [c] && c.transition == path[|before| - |start|] && Proper(c, v);
      assert now[..|start|] == before[..|start|];
    }
  }

  lemma PathStep(from: DriveState, to: DriveState, k: nat)
    requires k < |Path(from, to)|
    ensures var path := Path(from, to);
            && Follow(from, path[..k]).Some?
            && NextState(Follow(from, path[..k]).value, path[k]).Some?
            && Follow(from, path[..k + 1]) == NextState(Follow(from, path[..k]).value, path[k])
  {
    var path := Path(from, to);
    FollowOne(from, path[0]);
    assert path[..0] == [] && path[..1] == [path[0]];
    if k == 1 {
      assert path[..2][1..] == [path[1]];
      FollowOne(NextState(from, path[0]).value, path[1]);
    } else if k == 2 {
      assert path[..2][1..] == [path[1]] && path[..3][1..] == [path[1], path[2]];
      assert [path[1], path[2]][1..] == [path[2]];
      FollowOne(NextState(from, path[0]).value, path[1]);
      FollowOne(NextState(NextState(from, path[0]).value, path[1]).value, path[2]);
    }
  }

  lemma NothingFollowed(from: DriveState, to: DriveState, latencies: seq<nat>)
    ensures Follow(from, Path(from, to)[..0]) == Some(from) && Later(latencies, 0) == latencies
    ensures from == to || ShortestPath(from, to).None? ==> Path(from, to) == []
  {
  }

  lemma ListedPathIsNotEmpty(from: DriveState, to: DriveState)
    requires from != to && ShortestPath(from, to).Some?
    ensures Path(from, to) == ShortestPath(from, to).value != []
    ensures Follow(from, Path(from, to)[..0]) == Some(from)
  {
  }

  /** The last command of a path can only lead to the goal, wherever it is issued. */
  lemma LastCommandLeadsToGoal(from: DriveState, to: DriveState, sampled: DriveState)
    requires Path(from, to) != []
    ensures var path := Path(from, to);
            NextState(sampled, path[|path| - 1]).Some? ==> NextState(sampled, path[|path| - 1]) == Some(to)
  {
  }

  // ---------------------------------------------------------------- requests

  class Machine {
    var control: word
    var status: word
    var peer: Peer
    /** Every command that went out, in order. */
    var issued: seq<Issue>
    /** The outcome of the latest look at the state. */
    var lastSeen: DriveState

    constructor (peer: Peer)
      ensures control == 0 && status == 0 && this.peer == peer && issued == []
    {
      control, status, issued, lastSeen := 0, 0, [], NotReadyToSwitchOn;
      this.peer := peer;
    }

    /** An obedient drive whose state is known and that has nothing to report. */
    predicate InSync()
      reads this
    {
      peer.Obedient? && peer.drive.due.None? && ParseDriveState(status) == peer.drive.actual
    }

    method Update(statusword: word)
      modifies this`control, this`status
      ensures status == statusword && control == Updated(old(control), old(status), statusword)
    {
      var previous := status;
      status := statusword;
      if previous & STATE_BITS != status & STATE_BITS {
        var requested := StateToControlword(ParseDriveState(status));
        control := UpdateStateBits(control, requested);
      }
    }

    /** The read thread runs: reports arrive one by one. */
    method Elapse(chance: Chance) returns (ok: bool)
      modifies this`control, this`status, this`peer
      ensures (peer, ok) == (React(old(peer), chance).0, React(old(peer), chance).1.ok)
      ensures (control, status) == Reported(old(control), old(status), React(old(peer), chance).1.reports)
      ensures Others(control) == Others(old(control))
    {
      hide React, Others, Updated;
      var (p, moment) := React(peer, chance);
      peer := p;
      var i := 0;
      while i < |moment.reports|
        invariant 0 <= i <= |moment.reports| && peer == p
        invariant (control, status) == Reported(old(control), old(status), moment.reports[..i])
      {
        assert moment.reports[..i + 1][..i] == moment.reports[..i];
        Update(moment.reports[i]);
        i := i + 1;
      }
      assert moment.reports[..i] == moment.reports;
      ReportsKeepOthers(old(control), old(status), moment.reports);
      ok := moment.ok;
    }

    method GetCurrentState() returns (s: DriveState)
      modifies this`control, this`status, this`peer, this`lastSeen
      ensures s == lastSeen == ParseDriveState(status)
      ensures peer == React(old(peer), Passing).0 && Others(control) == Others(old(control))
      ensures (control, status) == Reported(old(control), old(status), React(old(peer), Passing).1.reports)
    {
      var _ := Elapse(Passing);
      s := ParseDriveState(status);
      lastSeen := s;
    }

    /** The command goes out, unless the sender refuses it; reports may come in before it is
        stored, and then give way to it. */
    method WriteControlword(bits: word, sampled: DriveState, t: DriveTransition) returns (ok: bool)
      modifies this`control, this`status, this`peer, this`issued
      ensures (peer, ok) == (React(old(peer), Sending(bits)).0, React(old(peer), Sending(bits)).1.ok)
      ensures ok ==> control == bits && issued == old(issued) + [Issue(sampled, t, bits)]
      ensures !ok ==> Others(control) == Others(old(control)) && issued == old(issued)
      ensures status == Reported(old(control), old(status), React(old(peer), Sending(bits)).1.reports).1
    {
      hide React, Others, Reported;
      ok := Elapse(Sending(bits));
      if !ok { return; }
      issued := issued + [Issue(sampled, t, bits)];
      control := bits;
    }

    /** True means that the last look found the goal. An obedient drive whose report is due
        gets there, and the caller is told so if and only if the report does not fall into the
        gap between the first look and the registration of the await. */
    method AwaitState(goal: DriveState) returns (ok: bool)
      modifies this`control, this`status, this`peer, this`lastSeen
      ensures Others(control) == Others(old(control))
      ensures ok ==> lastSeen == goal
      ensures old(peer.Obedient? && peer.drive.due.Some? && peer.drive.actual == goal != ParseDriveState(status)) ==>
                && InSync() && peer.drive == old(peer).drive.(due := None)
                && status == StatusWord(goal, old(peer).drive.others)
                && control == Updated(old(control), old(status), status)
                && (ok <==> old(peer).drive.due != Some(GAP - 1))
      ensures old(InSync() && peer.drive.actual == goal) ==>
                ok && peer == old(peer) && control == old(control) && status == old(status)
    {
      hide ParseDriveState, StatusWord, Others, Updated, Reported, React;
      ghost var obedient := peer.Obedient?;
      if obedient {
        StatusWordParses(peer.drive.actual, peer.drive.others);
        DrivePasses(peer.drive, control, status);
      }
      var s := GetCurrentState();
      if goal == s { return true; }
      if obedient { DrivePasses(peer.drive, control, status); }
      var _ := Elapse(Passing);
      if obedient { DriveIsAwaited(peer.drive, control, status); }
      ok := Elapse(Awaiting);
      if ok {
        if obedient { DrivePasses(peer.drive, control, status); }
        s := GetCurrentState();
        ok := goal == s;
      }
    }

    /** At most one command goes out; it is one that the table allows from the state sampled
        before, and changes the command bits alone. True means that it did and that the
        last look at the state found its destination. An obedient drive gets there, and true
        is returned if and only if its report does not fall into the gap. Its stored words are
        coherent then, unless it was the reset of a fault and its report came before the command
        was stored. */
    method RequestTransition(t: DriveTransition) returns (ok: bool)
      modifies this
      ensures Others(control) == Others(old(control))
      ensures issued == old(issued) ||
              exists c :: issued == old(issued) + [c] && c.transition == t && Proper(c, old(control))
      ensures ok ==> |issued| == |old(issued)| + 1 &&
                     NextState(issued[|old(issued)|].sampled, t) == Some(lastSeen)
      ensures old(InSync()) && NextState(old(peer).drive.actual, t).Some? ==>
                && InSync() && Some(peer.drive.actual) == NextState(old(peer).drive.actual, t)
                && peer.drive.latencies == Later(old(peer).drive.latencies, 1)
                && issued != old(issued) && (ok <==> Latency(old(peer).drive.latencies, 0) != GAP)
                && (Coherent(control, status) <==> t != FaultReset || Latency(old(peer).drive.latencies, 0) != 0)
    {
      hide React, Command, Others, UpdateStateBits, CommandWord, ParseDriveState, NextState, Reported, Updated;
      hide Coherent, StatusWord, Latency, Later;
      ghost var sync := InSync();
      if sync { DrivePasses(peer.drive, control, status); }
      var initialState := GetCurrentState();
      var next := NextState(initialState, t);
      var _ := Elapse(Passing);
      var requested := UpdateStateBits(control, CommandWord(t));
      CommandWordFields(control, t);
      NoSelfTransition(initialState, t);
      if next.None? { return false; }
      if sync {
        DriveObeys(peer.drive, control, t);
        NoReport(control, status);
        ReportOfTransition(control, requested, status, t, StatusWord(next.value, peer.drive.others), peer.drive.others);
      }
      ok := WriteControlword(requested, initialState, t);
      if !ok { return; }
      ghost var c := Issue(initialState, t, requested);
      assert issued == old(issued) + [c] && Proper(c, old(control));
      ok := AwaitState(next.value);
    }

    /** The commands that go out are a prefix of the listed path from the state first seen to
        the goal, each allowed by the table from the state sampled before it. True means
        that the goal was seen last. An obedient drive is where the commands lead, and true is
        returned if and only if it is there, or a path is listed and none of its reports falls
        into the gap. */
    method RequestState(goal: DriveState) returns (ok: bool, ghost initial: DriveState)
      modifies this
      ensures Others(control) == Others(old(control))
      ensures IssuedAlong(old(issued), issued, Path(initial, goal), old(control))
      ensures ok ==> lastSeen == goal && |issued| == |old(issued)| + |Path(initial, goal)|
      ensures ok ==> initial == goal || ShortestPath(initial, goal).Some?
      ensures old(InSync()) ==>
                && InSync() && initial == old(peer).drive.actual
                && |old(issued)| <= |issued| <= |old(issued)| + |Path(initial, goal)|
                && Follow(initial, Path(initial, goal)[..|issued| - |old(issued)|]) == Some(peer.drive.actual)
                && (ok <==> (initial == goal || ShortestPath(initial, goal).Some?)
                            && MissesGap(old(peer).drive.latencies, |Path(initial, goal)|))
                && (ok ==> peer.drive.actual == goal)
                && (issued != old(issued) ==> Coherent(control, status))
                && (!ok && Path(initial, goal) != [] ==>
                      MissedAt(old(peer).drive.latencies, |issued| - |old(issued)| - 1))
    {
      hide React, Others, Command, CommandWord, ParseDriveState, NextState, Follow, ShortestPath, IssuedAlong, Proper,
           Latency, Later, Coherent, Reported;
      ghost var sync := InSync();
      ghost var latencies := if sync then peer.drive.latencies else [];
      if sync { DrivePasses(peer.drive, control, status); }
      var initialState := GetCurrentState();
      initial := initialState;
      NoneIssued(issued, Path(initial, goal), control);
      OthersGiveTheSame(issued, issued, Path(initial, goal), control, old(control));
      NothingFollowed(initial, goal, latencies);
      if goal == initialState { return true, initial; }
      var path := ShortestPath(initialState, goal);
      if path.None? { return false, initial; }
      ListedPathIsNotEmpty(initial, goal);
      var k := 0;
      ok := true;
      while k < |path.value|
        invariant 0 <= k <= |path.value| && ok
        invariant Others(control) == Others(old(control))
        invariant |issued| == |old(issued)| + k && IssuedAlong(old(issued), issued, path.value, old(control))
        invariant k > 0 ==> NextState(issued[|issued| - 1].sampled, path.value[k - 1]) == Some(lastSeen)
        invariant sync ==> InSync() && Follow(initial, path.value[..k]) == Some(peer.drive.actual)
        invariant sync ==> peer.drive.latencies == Later(latencies, k) && MissesGap(latencies, k)
        invariant sync && k > 0 ==> Coherent(control, status)
      {
        ghost var before, word := issued, control;
        PathStep(initial, goal, k);
        PathsResetNothing(initial, goal, k);
        LaterLatency(latencies, k);
        ok := RequestTransition(path.value[k]);
        OneMoreIssued(old(issued), before, issued, path.value, word, old(control));
        if !ok { return; }
        k := k + 1;
      }
      LastCommandLeadsToGoal(initial, goal, issued[|issued| - 1].sampled);
      PathLeads(initial, goal);
      assert path.value[..k] == path.value;
    }
  }

  /** A drive that obeys and answers in time, and a request that fails nevertheless: the second
      report comes just after the controller has looked and before it awaits. */
  method ReportIsMissed() returns (ok: bool, actual: DriveState)
    ensures !ok && actual == SwitchedOn
  {
    var drive := Drive(SwitchOnDisabled, 0, None, [0, GAP, 0]);
    var m := new Machine(Obedient(drive));
    m.Update(0x40);
    ghost var initial;
    ok, initial := m.RequestState(OperationEnabled);
    FirstInGap(|m.issued| - 1);
    PathToOperation();
    actual := if m.peer.Obedient? then m.peer.drive.actual else drive.actual;
  }

  lemma FirstInGap(i: int)
    ensures MissedAt([0, GAP, 0], i) <==> i == 1
    ensures !MissesGap([0, GAP, 0], 3)
  {
    assert Latency([0, GAP, 0], 1) == GAP;
  }

  lemma PathToOperation()
    ensures var path := Path(SwitchOnDisabled, OperationEnabled);
            |path| == 3 && Follow(SwitchOnDisabled, path[..2]) == Some(SwitchedOn)
  {
    PathStep(SwitchOnDisabled, OperationEnabled, 0);
    PathStep(SwitchOnDisabled, OperationEnabled, 1);
    assert Path(SwitchOnDisabled, OperationEnabled)[..0] == [];
  }
}
