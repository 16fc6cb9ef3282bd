/** Reconfiguration of a process data object of a drive: an ordered sequence of confirmed
    writes to its communication and mapping records (sections 7.5.2.35 to 7.5.2.38 of
    CiA 301 v4.2.0), any of which may fail, with or without having taken effect. */
module PdoProtocol {

  import opened Bytes
  import opened Wrappers

  datatype Kind = RPDO | TPDO

  /** The settings a caller asks for; what is absent or empty is left as it is. */
  datatype Configuration = Configuration(
    valid: Option<bool>,
    rtr: Option<bool>,
    transmissionType: Option<byte>,
    inhibitTime: Option<uint16>,
    eventTimer: Option<uint16>,
    syncStartValue: Option<byte>,
    mappings: seq<bv32>)

  /** The mapped objects, subindices 1 to 255 of the mapping record. */
  type Slots = s: seq<bv32> | |s| == 255 witness seq(255, _ => 0)

  /** The two records of a process data object in the drive. */
  datatype Pdo = Pdo(
    cobId: bv32,
    transmissionType: byte,
    inhibitTime: uint16,
    eventTimer: uint16,
    syncStartValue: byte,
    count: byte,
    slots: Slots)

  const INVALID_BIT: bv32 := 0x8000_0000
  const NO_RTR_BIT: bv32 := 0x4000_0000

  predicate Valid(cobId: bv32) { cobId & INVALID_BIT == 0 }

  predicate Enabled(p: Pdo) { Valid(p.cobId) }

  function Validated(cobId: bv32): bv32 { cobId & !INVALID_BIT }

  datatype Value = U8(u8: byte) | U16(u16: uint16) | U32(u32: bv32)

  datatype Write = Write(index: nat, sub: byte, value: Value)

  /** The indices of the records. */
  datatype Records = Records(comm: nat, mapping: nat)

  function RecordsOf(kind: Kind, n: nat): Records {
    match kind
    case RPDO => Records((0x1400 + n - 1) % 0x1_0000, (0x1600 + n - 1) % 0x1_0000)
    case TPDO => Records((0x1800 + n - 1) % 0x1_0000, (0x1A00 + n - 1) % 0x1_0000)
  }

  /** Up to the 512 objects of either kind that the standard provides, no two share a record. */
  lemma RecordsAreDistinct(kind: Kind, n: nat, kind': Kind, n': nat)
    requires 1 <= n <= 512 && 1 <= n' <= 512 && (kind, n) != (kind', n')
    ensures var r, r' := RecordsOf(kind, n), RecordsOf(kind', n');
            && r.comm != r.mapping && r'.comm != r'.mapping
            && r.comm !in {r'.comm, r'.mapping} && r.mapping !in {r'.comm, r'.mapping}
  {
    hide RecordsOf;
    SmallRecords(kind, n);
    SmallRecords(kind', n');
  }

  lemma SmallRecords(kind: Kind, n: nat)
    requires 1 <= n <= 512
    ensures RecordsOf(kind, n) ==
            if kind == RPDO then Records(0x13FF + n, 0x15FF + n) else Records(0x17FF + n, 0x19FF + n)
  {
  }

  // ---------------------------------------------------------------- the drive

  /** The object a write addresses takes values of one size only. */
  predicate WellTyped(r: Records, w: Write) {
    if w.index == r.comm then
      match w.sub
      case 1 => w.value.U32?
      case 2 => w.value.U8?
      case 3 => w.value.U16?
      case 5 => w.value.U16?
      case 6 => w.value.U8?
      case _ => false
    else
      w.index == r.mapping && if w.sub == 0 then w.value.U8? else w.value.U32?
  }

  function Apply(r: Records, p: Pdo, w: Write): Pdo
    requires WellTyped(r, w)
  {
    if w.index == r.comm then
      match w.sub
      case 1 => p.(cobId := w.value.u32)
      case 2 => p.(transmissionType := w.value.u8)
      case 3 => p.(inhibitTime := w.value.u16)
      case 5 => p.(eventTimer := w.value.u16)
      case _ => p.(syncStartValue := w.value.u8)
    else if w.sub == 0 then p.(count := w.value.u8)
    else p.(slots := p.slots[w.sub - 1 := w.value.u32])
  }

  /** What becomes of a transfer: it is confirmed; it takes effect, but the confirmation is
      lost; or it fails. */
  datatype Outcome = Confirmed | Lost | Failed

  /** A write that was asked for, and the object before and after it. */
  datatype Event = Event(write: Write, before: Pdo, after: Pdo)

  /** The drive as seen through the channel. */
  datatype Channel = Channel(pdo: Pdo, outcomes: seq<Outcome>, log: seq<Event>)

  function Next(outcomes: seq<Outcome>): Outcome { if outcomes == [] then Confirmed else outcomes[0] }

  function Rest(outcomes: seq<Outcome>): seq<Outcome> { if outcomes == [] then [] else outcomes[1..] }

  /** One write. A value of the wrong size is refused. */
  function Send(r: Records, ch: Channel, w: Write): (Channel, bool) {
    var o := Next(ch.outcomes);
    var p := if WellTyped(r, w) && o != Failed then Apply(r, ch.pdo, w) else ch.pdo;
    (Channel(p, Rest(ch.outcomes), ch.log + [Event(w, ch.pdo, p)]), WellTyped(r, w) && o == Confirmed)
  }

  /** Writes one after another, up to the first that fails. */
  function SendAll(r: Records, ch: Channel, ws: seq<Write>): (Channel, bool)
    decreases |ws|
  {
    if ws == [] then (ch, true)
    else
      var (ch', ok) := Send(r, ch, ws[0]);
      if ok then SendAll(r, ch', ws[1..]) else (ch', false)
  }

  /** The first `n` transfers are confirmed. */
  predicate Smooth(outcomes: seq<Outcome>, n: nat) {
    forall i | 0 <= i < n && i < |outcomes| :: outcomes[i] == Confirmed
  }

  // ---------------------------------------------------------------- the writes

  /** An option that only a transmitted object has. */
  predicate Legal(kind: Kind, conf: Configuration) {
    kind == TPDO || (conf.rtr.None? && conf.syncStartValue.None?)
  }

  /** The COB-ID with which the object is disabled. */
  function Disabling(conf: Configuration, cobId: bv32): bv32 {
    var bits := cobId | INVALID_BIT;
    if conf.rtr == Some(true) then bits & !NO_RTR_BIT
    else if conf.rtr == Some(false) then bits | NO_RTR_BIT
    else bits
  }

  /** All that a configuration depends on. */
  datatype Request = Request(kind: Kind, n: nat, conf: Configuration, cobId: bv32) {
    function Where(): Records { RecordsOf(kind, n) }

    function Bits(): bv32 { Disabling(conf, cobId) }

    function Plan(): seq<Write> {
      if conf.rtr.Some? && kind != TPDO then []
      else [Write(Where().comm, 1, U32(Bits()))] + FromTransmissionType()
    }

    function FromTransmissionType(): seq<Write> {
      if conf.transmissionType.None? then FromInhibitTime()
      else [Write(Where().comm, 2, U8(conf.transmissionType.value))] + FromInhibitTime()
    }

    function FromInhibitTime(): seq<Write> {
      if conf.inhibitTime.None? then FromEventTimer()
      else [Write(Where().comm, 3, U16(conf.inhibitTime.value))] + FromEventTimer()
    }

    function FromEventTimer(): seq<Write> {
      if conf.eventTimer.None? then FromSync()
      else [Write(Where().comm, 5, U16(conf.eventTimer.value))] + FromSync()
    }

    function FromSync(): seq<Write> {
      if conf.syncStartValue.None? then FromMapping()
      else if kind != TPDO then []
      else [Write(Where().comm, 6, U8(conf.syncStartValue.value))] + FromMapping()
    }

    function FromMapping(): seq<Write> {
      if conf.mappings == [] then End()
      else [Write(Where().mapping, 0, U8(0))] + FromSlot(0)
    }

    function FromSlot(i: nat): seq<Write>
      requires i <= |conf.mappings|
      decreases |conf.mappings| - i
    {
      if i == |conf.mappings| then [Write(Where().mapping, 0, U8(i % 0x100))] + End()
      else [Write(Where().mapping, (i + 1) % 0x100, U32(conf.mappings[i]))] + FromSlot(i + 1)
    }

    function End(): seq<Write> {
      if conf.valid == Some(false) then []
      else [Write(Where().comm, 1, U32(Validated(Bits())))]
    }

    /** The object with every requested setting, enabled unless that is declined. */
    function Requested(p: Pdo): Pdo
      requires |conf.mappings| <= 255
    {
      Pdo(if conf.valid == Some(false) then Bits() else Validated(Bits()),
          conf.transmissionType.GetOr(p.transmissionType),
          conf.inhibitTime.GetOr(p.inhibitTime),
          conf.eventTimer.GetOr(p.eventTimer),
          conf.syncStartValue.GetOr(p.syncStartValue),
          if conf.mappings == [] then p.count else |conf.mappings|,
          conf.mappings + p.slots[|conf.mappings|..])
    }

    // The object as it stands when each group of writes begins.

    function Disabled(p: Pdo): Pdo { p.(cobId := Bits()) }

    function Typed(p: Pdo): Pdo {
      Disabled(p).(transmissionType := conf.transmissionType.GetOr(p.transmissionType))
    }

    function Inhibited(p: Pdo): Pdo { Typed(p).(inhibitTime := conf.inhibitTime.GetOr(p.inhibitTime)) }

    function Timed(p: Pdo): Pdo { Inhibited(p).(eventTimer := conf.eventTimer.GetOr(p.eventTimer)) }

    function Synced(p: Pdo): Pdo { Timed(p).(syncStartValue := conf.syncStartValue.GetOr(p.syncStartValue)) }

    function Mapped(p: Pdo, i: nat, count: byte): Pdo
      requires i <= |conf.mappings| && i <= 255
    {
      Synced(p).(count := count, slots := conf.mappings[..i] + p.slots[i..])
    }
  }

  // ---------------------------------------------------------------- what an observer sees

  /** The COB-ID is that of before, but for the bit that enables the object and the RTR bit
      if it is asked for. */
  predicate KeepsCobId(conf: Configuration, before: bv32, after: bv32) {
    && (before ^ after) & 0x3FFF_FFFF == 0
    && match conf.rtr
       case None => (before ^ after) & NO_RTR_BIT == 0
       case Some(rtr) => rtr <==> after & NO_RTR_BIT == 0
  }

  predicate WritesSlot(r: Records, w: Write) { w.index == r.mapping && w.sub != 0 }

  /** What holds of every write: afterwards the object is the original one, or it is disabled,
      or it has all that was requested; and the mapping is written only while the object is
      disabled and its mapping count is 0. */
  predicate Careful(q: Request, original: Pdo, e: Event) {
    && (e.after != original ==> KeepsCobId(q.conf, original.cobId, e.after.cobId))
    && (e.after != original && Enabled(e.after) ==>
          Legal(q.kind, q.conf) && |q.conf.mappings| <= 255 && e.after == q.Requested(original))
    && (WritesSlot(q.Where(), e.write) ==> !Enabled(e.before) && e.before.count == 0)
  }

  /** What a run of writes leaves that is not cut short: all that was requested; or, if an
      option is illegal, the settings written before it was found. */
  predicate Concluded(q: Request, original: Pdo, p: Pdo) {
    if Legal(q.kind, q.conf) then |q.conf.mappings| <= 255 && p == q.Requested(original)
    else p == if q.conf.rtr.Some? then original else q.Timed(original)
  }

  /** Writes that are careful from here on, wherever they stop, and conclude if they do not. */
  predicate CarefulRun(q: Request, original: Pdo, p: Pdo, ws: seq<Write>)
    decreases |ws|
  {
    if ws == [] then Concluded(q, original, p)
    else
      && Careful(q, original, Event(ws[0], p, p))
      && (WellTyped(q.Where(), ws[0]) ==>
            var p' := Apply(q.Where(), p, ws[0]);
            Careful(q, original, Event(ws[0], p, p')) && CarefulRun(q, original, p', ws[1..]))
  }

  /** What was requested, setting by setting: nothing else changes. */
  lemma RequestedSettings(q: Request, p: Pdo, i: nat)
    requires |q.conf.mappings| <= 255 && i < 255 && p.cobId == q.cobId
    ensures var r := q.Requested(p);
            && (Enabled(r) <==> q.conf.valid != Some(false)) && KeepsCobId(q.conf, p.cobId, r.cobId)
            && (if q.conf.transmissionType == None then r.transmissionType == p.transmissionType
                else Some(r.transmissionType) == q.conf.transmissionType)
            && (if q.conf.inhibitTime == None then r.inhibitTime == p.inhibitTime
                else Some(r.inhibitTime) == q.conf.inhibitTime)
            && (if q.conf.eventTimer == None then r.eventTimer == p.eventTimer
                else Some(r.eventTimer) == q.conf.eventTimer)
            && (if q.conf.syncStartValue == None then r.syncStartValue == p.syncStartValue
                else Some(r.syncStartValue) == q.conf.syncStartValue)
            && r.slots[i] == (if i < |q.conf.mappings| then q.conf.mappings[i] else p.slots[i])
            && r.count == (if |q.conf.mappings| > 0 then |q.conf.mappings| else p.count)
  {
    hide Disabling, Validated, Valid, KeepsCobId;
    DisablingKeeps(q, p.cobId);
  }

  lemma RecordsDiffer(q: Request)
    ensures q.Where().comm != q.Where().mapping
  {
  }

  lemma DisablingKeepsLowBits(conf: Configuration, cobId: bv32)
    ensures (cobId ^ Disabling(conf, cobId)) & 0x3FFF_FFFF == 0 && !Valid(Disabling(conf, cobId))
  {
    var bits := cobId | INVALID_BIT;
    assert (cobId ^ bits) & 0x3FFF_FFFF == 0;
  }

  lemma RtrBitOf(cobId: bv32)
    ensures (cobId ^ (cobId | INVALID_BIT)) & NO_RTR_BIT == 0
    ensures ((cobId | INVALID_BIT) & !NO_RTR_BIT) & NO_RTR_BIT == 0
    ensures ((cobId | INVALID_BIT) | NO_RTR_BIT) & NO_RTR_BIT != 0
  {
  }

  lemma DisablingSetsRtr(conf: Configuration, cobId: bv32)
    ensures match conf.rtr
            case None => (cobId ^ Disabling(conf, cobId)) & NO_RTR_BIT == 0
            case Some(rtr) => rtr <==> Disabling(conf, cobId) & NO_RTR_BIT == 0
  {
    RtrBitOf(cobId);
    match conf.rtr
    case None =>
    case Some(rtr) => if rtr { assert conf.rtr == Some(true); } else { assert conf.rtr == Some(false); }
  }

  lemma ValidatingKeeps(conf: Configuration, before: bv32, after: bv32)
    requires KeepsCobId(conf, before, after)
    ensures KeepsCobId(conf, before, Validated(after)) && Valid(Validated(after))
  {
    assert (before ^ after) & 0x3FFF_FFFF == (before ^ Validated(after)) & 0x3FFF_FFFF;
    assert (before ^ after) & NO_RTR_BIT == (before ^ Validated(after)) & NO_RTR_BIT;
    assert after & NO_RTR_BIT == Validated(after) & NO_RTR_BIT;
  }

  lemma {:induction false} DisablingKeeps(q: Request, cobId: bv32)
    requires q.cobId == cobId
    ensures KeepsCobId(q.conf, cobId, q.Bits()) && !Valid(q.Bits())
    ensures KeepsCobId(q.conf, cobId, Validated(q.Bits())) && Valid(Validated(q.Bits()))
  {
    hide Disabling, Valid, Validated, KeepsCobId;
    DisablingKeepsCobId(q.conf, cobId);
    ValidatingKeeps(q.conf, cobId, q.Bits());
  }

  lemma DisablingKeepsCobId(conf: Configuration, cobId: bv32)
    ensures KeepsCobId(conf, cobId, Disabling(conf, cobId)) && !Valid(Disabling(conf, cobId))
  {
    hide Disabling, Valid;
    DisablingKeepsLowBits(conf, cobId);
    DisablingSetsRtr(conf, cobId);
  }

  lemma Prepended(q: Request, original: Pdo, p: Pdo, w: Write, ws: seq<Write>)
    requires Careful(q, original, Event(w, p, p))
    requires WellTyped(q.Where(), w) ==>
               && Careful(q, original, Event(w, p, Apply(q.Where(), p, w)))
               && CarefulRun(q, original, Apply(q.Where(), p, w), ws)
    ensures CarefulRun(q, original, p, [w] + ws)
  {
    assert ([w] + ws)[1..] == ws;
  }

  /** A write that leaves the COB-ID and the mapped objects alone is careful while the object
      is disabled. */
  lemma {:induction false} QuietIsCareful(q: Request, original: Pdo, e: Event)
    requires q.cobId == original.cobId && e.before.cobId == e.after.cobId == q.Bits()
    requires WritesSlot(q.Where(), e.write) ==> e.before.count == 0
    ensures Careful(q, original, e)
  {
    hide KeepsCobId, Disabling, Valid, Validated;
    DisablingKeeps(q, original.cobId);
  }

  lemma {:induction false} EndIsCareful(q: Request, original: Pdo, p: Pdo)
    requires q.cobId == original.cobId && Legal(q.kind, q.conf) && |q.conf.mappings| <= 255
    requires p == q.Requested(original).(cobId := q.Bits())
    ensures CarefulRun(q, original, p, q.End())
  {
    hide KeepsCobId, Disabling, Valid, Validated;
    DisablingKeeps(q, original.cobId);
    if q.conf.valid != Some(false) {
      var w := Write(q.Where().comm, 1, U32(Validated(q.Bits())));
      RecordsDiffer(q);
      assert CarefulRun(q, original, Apply(q.Where(), p, w), []);
      Prepended(q, original, p, w, []);
      assert [w] + [] == [w];
    }
  }

  lemma {:induction false} CountIsCareful(q: Request, original: Pdo)
    requires q.cobId == original.cobId && Legal(q.kind, q.conf) && 0 < |q.conf.mappings| <= 255
    ensures CarefulRun(q, original, q.Mapped(original, |q.conf.mappings|, 0), q.FromSlot(|q.conf.mappings|))
  {
    hide KeepsCobId, Disabling, Careful, CarefulRun, Valid, Validated;
    RecordsDiffer(q);
    var i := |q.conf.mappings|;
    var p := q.Mapped(original, i, 0);
    var w := Write(q.Where().mapping, 0, U8(i % 0x100));
    var p' := Apply(q.Where(), p, w);
    QuietIsCareful(q, original, Event(w, p, p));
    QuietIsCareful(q, original, Event(w, p, p'));
    assert q.conf.mappings[..i] == q.conf.mappings;
    EndIsCareful(q, original, p');
    Prepended(q, original, p, w, q.End());
  }

  lemma {:induction false} SlotIsCareful(q: Request, original: Pdo, i: nat, rest: seq<Write>)
    requires q.cobId == original.cobId && i < |q.conf.mappings| && i <= 255
    requires i < 255 ==> CarefulRun(q, original, q.Mapped(original, i + 1, 0), rest)
    ensures var w := Write(q.Where().mapping, (i + 1) % 0x100, U32(q.conf.mappings[i]));
            CarefulRun(q, original, q.Mapped(original, i, 0), [w] + rest)
  {
    hide KeepsCobId, Disabling, Careful, CarefulRun, Valid, Validated;
    RecordsDiffer(q);
    var p := q.Mapped(original, i, 0);
    var w := Write(q.Where().mapping, (i + 1) % 0x100, U32(q.conf.mappings[i]));
    QuietIsCareful(q, original, Event(w, p, p));
    if i < 255 {
      var p' := Apply(q.Where(), p, w);
      assert p'.slots == q.Mapped(original, i + 1, 0).slots;
      QuietIsCareful(q, original, Event(w, p, p'));
    }
    Prepended(q, original, p, w, rest);
  }

  lemma {:induction false} SlotsAreCareful(q: Request, original: Pdo, i: nat)
    requires q.cobId == original.cobId && Legal(q.kind, q.conf) && q.conf.mappings != []
    requires i <= |q.conf.mappings| && i <= 255
    ensures CarefulRun(q, original, q.Mapped(original, i, 0), q.FromSlot(i))
    decreases |q.conf.mappings| - i
  {
    hide CarefulRun;
    if i == |q.conf.mappings| {
      CountIsCareful(q, original);
    } else {
      if i < 255 { SlotsAreCareful(q, original, i + 1); }
      SlotIsCareful(q, original, i, q.FromSlot(i + 1));
    }
  }

  lemma MappingIsCareful(q: Request, original: Pdo)
    requires q.cobId == original.cobId && Legal(q.kind, q.conf)
    ensures CarefulRun(q, original, q.Synced(original), q.FromMapping())
  {
    hide KeepsCobId, Disabling, Careful, CarefulRun, Valid, Validated;
    RecordsDiffer(q);
    var p := q.Synced(original);
    if q.conf.mappings == [] {
      assert q.conf.mappings + original.slots[0..] == original.slots;
      EndIsCareful(q, original, p);
    } else {
      var w := Write(q.Where().mapping, 0, U8(0));
      var p' := Apply(q.Where(), p, w);
      assert q.conf.mappings[..0] + original.slots[0..] == original.slots;
      QuietIsCareful(q, original, Event(w, p, p));
      QuietIsCareful(q, original, Event(w, p, p'));
      SlotsAreCareful(q, original, 0);
      Prepended(q, original, p, w, q.FromSlot(0));
    }
  }

  /** One write to an option of the communication record. */
  lemma {:induction false} OptionIsCareful(q: Request, original: Pdo, p: Pdo, w: Write, ws: seq<Write>)
    requires q.cobId == original.cobId && p.cobId == q.Bits()
    requires w.index == q.Where().comm && w.sub != 1 && WellTyped(q.Where(), w)
    requires CarefulRun(q, original, Apply(q.Where(), p, w), ws)
    ensures CarefulRun(q, original, p, [w] + ws)
  {
    hide KeepsCobId, Disabling, Careful, CarefulRun, Valid, Validated;
    RecordsDiffer(q);
    QuietIsCareful(q, original, Event(w, p, p));
    QuietIsCareful(q, original, Event(w, p, Apply(q.Where(), p, w)));
    Prepended(q, original, p, w, ws);
  }

  lemma SyncIsCareful(q: Request, original: Pdo)
    requires q.cobId == original.cobId && (q.kind == TPDO || q.conf.rtr.None?)
    ensures CarefulRun(q, original, q.Timed(original), q.FromSync())
  {
    hide Disabling, WritesSlot, Careful;
    RecordsDiffer(q);
    if q.conf.syncStartValue.Some? && q.kind != TPDO { return; }
    MappingIsCareful(q, original);
    if q.conf.syncStartValue.Some? {
      OptionIsCareful(q, original, q.Timed(original), Write(q.Where().comm, 6, U8(q.conf.syncStartValue.value)),
                      q.FromMapping());
    }
  }

  lemma {:induction false} OptionsAreCareful(q: Request, original: Pdo)
    requires q.cobId == original.cobId && (q.kind == TPDO || q.conf.rtr.None?)
    ensures CarefulRun(q, original, q.Disabled(original), q.FromTransmissionType())
  {
    hide Disabling, CarefulRun, WritesSlot, Careful;
    SyncIsCareful(q, original);
    if q.conf.eventTimer.Some? {
      OptionIsCareful(q, original, q.Inhibited(original), Write(q.Where().comm, 5, U16(q.conf.eventTimer.value)),
                      q.FromSync());
    }
    if q.conf.inhibitTime.Some? {
      OptionIsCareful(q, original, q.Typed(original), Write(q.Where().comm, 3, U16(q.conf.inhibitTime.value)),
                      q.FromEventTimer());
    }
    if q.conf.transmissionType.Some? {
      OptionIsCareful(q, original, q.Disabled(original), Write(q.Where().comm, 2, U8(q.conf.transmissionType.value)),
                      q.FromInhibitTime());
    }
  }

  /** The whole sequence of writes is careful, and concludes when it runs to the end. */
  lemma PlanIsCareful(q: Request, original: Pdo)
    requires q.cobId == original.cobId
    ensures CarefulRun(q, original, original, q.Plan())
  {
    hide Disabling, Valid, Validated, KeepsCobId;
    RecordsDiffer(q);
    if q.conf.rtr.Some? && q.kind != TPDO { return; }
    var w := Write(q.Where().comm, 1, U32(q.Bits()));
    DisablingKeeps(q, original.cobId);
    OptionsAreCareful(q, original);
    Prepended(q, original, original, w, q.FromTransmissionType());
  }

  /** The events lead from one state of the object to another. */
  predicate Chained(events: seq<Event>, from: Pdo, to: Pdo)
    decreases |events|
  {
    if events == [] then from == to else events[0].before == from && Chained(events[1..], events[0].after, to)
  }

  /** From one moment to a later one, a prefix of the given writes was asked for, and what
      an observer saw after each of them was careful. */
  predicate Witnessed(q: Request, original: Pdo, ws: seq<Write>, ch: Channel, end: Channel) {
    && |ch.log| <= |end.log| <= |ch.log| + |ws| && end.log[..|ch.log|] == ch.log
    && Chained(end.log[|ch.log|..], ch.pdo, end.pdo)
    && forall i | |ch.log| <= i < |end.log| :: Careful(q, original, end.log[i]) && end.log[i].write == ws[i - |ch.log|]
  }

  lemma OnlyWitnessed(q: Request, original: Pdo, ws: seq<Write>, ch: Channel)
    ensures Witnessed(q, original, ws, ch, ch)
  {
  }

  lemma OneWitnessed(q: Request, original: Pdo, ws: seq<Write>, ch: Channel, e: Event, ch': Channel)
    requires ch'.log == ch.log + [e] && Careful(q, original, e)
    requires e.before == ch.pdo && e.after == ch'.pdo && ws != [] && e.write == ws[0]
    ensures Witnessed(q, original, ws, ch, ch')
  {
    hide Careful;
    assert ch'.log[|ch.log|..] == [e] && [e][1..] == [] && ch'.log[..|ch.log|] == ch.log;
    assert Chained([e], ch.pdo, ch'.pdo);
  }

  lemma MoreWitnessed(q: Request, original: Pdo, ws: seq<Write>, ch: Channel, e: Event, ch': Channel, end: Channel)
    requires ch'.log == ch.log + [e] && Careful(q, original, e)
    requires e.before == ch.pdo && e.after == ch'.pdo && ws != [] && e.write == ws[0]
    requires Witnessed(q, original, ws[1..], ch', end)
    ensures Witnessed(q, original, ws, ch, end)
  {
    hide Careful;
    var n := |ch.log|;
    assert end.log[n] == end.log[..n + 1][n] == e;
    assert end.log[..n] == end.log[..n + 1][..n];
    assert end.log[n..][1..] == end.log[n + 1..];
  }

  /** Whichever write of a careful run fails, every event is careful. */
  lemma {:induction false} EventsAreCareful(q: Request, original: Pdo, ch: Channel, ws: seq<Write>)
    requires CarefulRun(q, original, ch.pdo, ws)
    ensures var (end, ok) := SendAll(q.Where(), ch, ws);
            && Witnessed(q, original, ws, ch, end)
            && (ok ==> Concluded(q, original, end.pdo))
    decreases |ws|
  {
    hide Witnessed, Careful, WellTyped, Apply, Concluded;
    if ws == [] {
      OnlyWitnessed(q, original, ws, ch);
    } else {
      var (ch', sent) := Send(q.Where(), ch, ws[0]);
      var e := Event(ws[0], ch.pdo, ch'.pdo);
      if sent {
        EventsAreCareful(q, original, ch', ws[1..]);
        MoreWitnessed(q, original, ws, ch, e, ch', SendAll(q.Where(), ch', ws[1..]).0);
      } else {
        OneWitnessed(q, original, ws, ch, e, ch');
      }
    }
  }

  predicate AllTyped(r: Records, ws: seq<Write>) {
    forall i | 0 <= i < |ws| :: WellTyped(r, ws[i])
  }

  lemma {:induction false} RunsToTheEnd(r: Records, ch: Channel, ws: seq<Write>)
    ensures SendAll(r, ch, ws).1 <==> AllTyped(r, ws) && Smooth(ch.outcomes, |ws|)
    decreases |ws|
  {
    hide WellTyped, Apply;
    if ws != [] {
      var (ch', sent) := Send(r, ch, ws[0]);
      var o := ch.outcomes;
      assert AllTyped(r, ws) <==> WellTyped(r, ws[0]) && AllTyped(r, ws[1..]) by {
        assert forall i | 0 < i < |ws| :: ws[i] == ws[1..][i - 1];
      }
      assert Smooth(o, |ws|) <==> Next(o) == Confirmed && Smooth(Rest(o), |ws| - 1) by {
        assert forall i | 0 < i < |o| :: o[i] == o[1..][i - 1];
      }
      if sent { RunsToTheEnd(r, ch', ws[1..]); }
    }
  }

  lemma TypedPrepended(r: Records, w: Write, ws: seq<Write>)
    ensures AllTyped(r, [w] + ws) <==> WellTyped(r, w) && AllTyped(r, ws)
  {
    hide WellTyped;
    var all := [w] + ws;
    assert all[0] == w && forall i | 0 <= i < |ws| :: all[i + 1] == ws[i];
    if AllTyped(r, all) {
      forall i | 0 <= i < |ws| ensures WellTyped(r, ws[i]) { assert WellTyped(r, all[i + 1]); }
    }
  }

  lemma EndIsTyped(q: Request)
    ensures AllTyped(q.Where(), q.End())
  {
    hide Disabling, Validated;
  }

  lemma {:induction false} SlotsAreTyped(q: Request, i: nat)
    requires i <= |q.conf.mappings| && i <= 255
    ensures AllTyped(q.Where(), q.FromSlot(i)) <==> |q.conf.mappings| <= 255
    decreases |q.conf.mappings| - i
  {
    hide AllTyped, Disabling, Validated;
    RecordsDiffer(q);
    if i == |q.conf.mappings| {
      EndIsTyped(q);
      TypedPrepended(q.Where(), Write(q.Where().mapping, 0, U8(i % 0x100)), q.End());
    } else {
      if i < 255 { SlotsAreTyped(q, i + 1); }
      TypedPrepended(q.Where(), Write(q.Where().mapping, (i + 1) % 0x100, U32(q.conf.mappings[i])), q.FromSlot(i + 1));
    }
  }

  lemma MappingIsTyped(q: Request)
    ensures AllTyped(q.Where(), q.FromMapping()) <==> |q.conf.mappings| <= 255
  {
    hide AllTyped, Disabling, Validated;
    RecordsDiffer(q);
    if q.conf.mappings == [] {
      EndIsTyped(q);
    } else {
      SlotsAreTyped(q, 0);
      TypedPrepended(q.Where(), Write(q.Where().mapping, 0, U8(0)), q.FromSlot(0));
    }
  }

  lemma PlanIsTyped(q: Request)
    requires Legal(q.kind, q.conf)
    ensures AllTyped(q.Where(), q.Plan()) <==> |q.conf.mappings| <= 255
  {
    hide AllTyped, Disabling;
    var r, c := q.Where(), q.conf;
    MappingIsTyped(q);
    if c.syncStartValue.Some? { TypedPrepended(r, Write(r.comm, 6, U8(c.syncStartValue.value)), q.FromMapping()); }
    if c.eventTimer.Some? { TypedPrepended(r, Write(r.comm, 5, U16(c.eventTimer.value)), q.FromSync()); }
    if c.inhibitTime.Some? { TypedPrepended(r, Write(r.comm, 3, U16(c.inhibitTime.value)), q.FromEventTimer()); }
    if c.transmissionType.Some? {
      TypedPrepended(r, Write(r.comm, 2, U8(c.transmissionType.value)), q.FromInhibitTime());
    }
    TypedPrepended(r, Write(r.comm, 1, U32(q.Bits())), q.FromTransmissionType());
  }

  /** With an illegal option, fewer writes are asked for. */
  lemma RejectedPlanIsTyped(q: Request)
    requires !Legal(q.kind, q.conf)
    ensures AllTyped(q.Where(), q.Plan()) && (q.conf.rtr.Some? ==> q.Plan() == [])
  {
    hide AllTyped, Disabling;
    var r, c := q.Where(), q.conf;
    NothingIsTyped(r);
    if c.rtr.Some? { return; }
    if c.eventTimer.Some? { TypedPrepended(r, Write(r.comm, 5, U16(c.eventTimer.value)), q.FromSync()); }
    if c.inhibitTime.Some? { TypedPrepended(r, Write(r.comm, 3, U16(c.inhibitTime.value)), q.FromEventTimer()); }
    if c.transmissionType.Some? {
      TypedPrepended(r, Write(r.comm, 2, U8(c.transmissionType.value)), q.FromInhibitTime());
    }
    TypedPrepended(r, Write(r.comm, 1, U32(q.Bits())), q.FromTransmissionType());
  }

  lemma NothingIsTyped(r: Records)
    ensures AllTyped(r, [])
  {
  }

  lemma NothingChanges(q: Request, original: Pdo, ch: Channel, end: Channel)
    requires Witnessed(q, original, [], ch, end)
    ensures end.pdo == ch.pdo && end.log == ch.log
  {
    hide Careful;
    assert end.log[|ch.log|..] == [] && end.log[..|ch.log|] == end.log;
  }

  /** A SYNC start value for a received object is found too late: it leaves the object
      disabled, and as it was only if it was disabled before and the options written until
      then were those it had. */
  lemma LateRefusal(q: Request, p: Pdo)
    requires q.kind == RPDO && q.conf.rtr.None? && q.conf.syncStartValue.Some? && q.cobId == p.cobId
    ensures !Legal(q.kind, q.conf) && !Enabled(q.Timed(p))
    ensures q.Timed(p) == p <==>
            && !Enabled(p)
            && q.conf.transmissionType.GetOr(p.transmissionType) == p.transmissionType
            && q.conf.inhibitTime.GetOr(p.inhibitTime) == p.inhibitTime
            && q.conf.eventTimer.GetOr(p.eventTimer) == p.eventTimer
  {
    hide Disabling, Valid;
    DisablingKeepsLowBits(q.conf, p.cobId);
    DisabledAlready(q.conf, p.cobId);
  }

  lemma DisabledAlready(conf: Configuration, cobId: bv32)
    requires conf.rtr.None?
    ensures !Valid(cobId) ==> Disabling(conf, cobId) == cobId
  {
    TopBit(cobId);
  }

  lemma TopBit(cobId: bv32)
    ensures cobId & INVALID_BIT == 0 || cobId | INVALID_BIT == cobId
  {
  }

  // ---------------------------------------------------------------- the protocol

  /** The SDO client of a drive, for the records of one object. */
  class Sdo {
    const records: Records
    var channel: Channel

    constructor (records: Records, channel: Channel)
      ensures this.records == records && this.channel == channel
    {
      this.records, this.channel := records, channel;
    }

    method UploadCobId() returns (ok: bool, cobId: bv32)
      modifies this
      ensures channel == old(channel).(outcomes := Rest(old(channel.outcomes)))
      ensures ok <==> Next(old(channel.outcomes)) == Confirmed
      ensures ok ==> cobId == channel.pdo.cobId
    {
      ok := Next(channel.outcomes) == Confirmed;
      channel := channel.(outcomes := Rest(channel.outcomes));
      cobId := if ok then channel.pdo.cobId else 0;
    }

    method Download(index: nat, sub: byte, value: Value) returns (ok: bool)
      modifies this
      ensures (channel, ok) == Send(records, old(channel), Write(index, sub, value))
    {
      var r := Send(records, channel, Write(index, sub, value));
      channel, ok := r.0, r.1;
    }
  }

  lemma Continue(r: Records, ch: Channel, w: Write, ws: seq<Write>)
    ensures SendAll(r, ch, [w] + ws) ==
            if Send(r, ch, w).1 then SendAll(r, Send(r, ch, w).0, ws) else (Send(r, ch, w).0, false)
  {
    assert ([w] + ws)[1..] == ws;
  }

  lemma Finished(r: Records, ch: Channel)
    ensures SendAll(r, ch, []) == (ch, true)
  {
  }

  class Protocol {
    const kind: Kind
    const n: nat
    const sdo: Sdo

    constructor (kind: Kind, n: nat, sdo: Sdo)
      ensures this.kind == kind && this.n == n && this.sdo == sdo
    {
      this.kind, this.n, this.sdo := kind, n, sdo;
    }

    /** One write, of the sequence that it and `rest` are. */
    method Step(index: nat, sub: byte, value: Value, ghost rest: seq<Write>) returns (ok: bool)
      modifies sdo
      ensures SendAll(sdo.records, old(sdo.channel), [Write(index, sub, value)] + rest) ==
              if ok then SendAll(sdo.records, sdo.channel, rest) else (sdo.channel, false)
    {
      hide SendAll, Send;
      Continue(sdo.records, sdo.channel, Write(index, sub, value), rest);
      ok := sdo.Download(index, sub, value);
    }

    /** The count is zero while the mapped objects are written. */
    method WriteMapping(conf: Configuration, mapping: nat, ghost q: Request) returns (ok: bool)
      requires q.conf == conf && q.Where().mapping == mapping && conf.mappings != []
      modifies sdo
      ensures SendAll(sdo.records, old(sdo.channel), q.FromMapping()) ==
              if ok then SendAll(sdo.records, sdo.channel, q.End()) else (sdo.channel, false)
    {
      hide SendAll, Disabling, RecordsOf;
      ok := Step(mapping, 0, U8(0), q.FromSlot(0));
      if !ok { return; }
      var i := 0;
      while i < |conf.mappings|
        invariant 0 <= i <= |conf.mappings|
        invariant SendAll(sdo.records, old(sdo.channel), q.FromMapping()) ==
            SendAll(sdo.records, sdo.channel, q.FromSlot(i))
      {
        i := i + 1;
        ok := Step(mapping, i % 0x100, U32(conf.mappings[i - 1]), q.FromSlot(i));
        if !ok { return; }
      }
      ok := Step(mapping, 0, U8(i % 0x100), q.End());
    }

    /** All writes but the first. */
    method WriteOptions(conf: Configuration, records: Records, bits: bv32, ghost q: Request) returns (ok: bool)
      requires sdo.records == q.Where() == records && q.conf == conf && q.kind == kind && q.Bits() == bits
      requires conf.rtr.Some? ==> kind == TPDO
      modifies sdo
      ensures var r := SendAll(sdo.records, old(sdo.channel), q.FromTransmissionType());
              sdo.channel == r.0 && (ok <==> r.1 && Legal(kind, conf))
    {
      hide SendAll, Validated, Disabling, RecordsOf;
      ghost var start := sdo.channel;
      var Records(comm, mapping) := records;
      if conf.transmissionType.Some? {
        ok := Step(comm, 2, U8(conf.transmissionType.value), q.FromInhibitTime());
        if !ok { return; }
      }
      assert SendAll(sdo.records, start, q.FromTransmissionType()) ==
          SendAll(sdo.records, sdo.channel, q.FromInhibitTime());
      if conf.inhibitTime.Some? {
        ok := Step(comm, 3, U16(conf.inhibitTime.value), q.FromEventTimer());
        if !ok { return; }
      }
      assert SendAll(sdo.records, start, q.FromTransmissionType()) ==
          SendAll(sdo.records, sdo.channel, q.FromEventTimer());
      if conf.eventTimer.Some? {
        ok := Step(comm, 5, U16(conf.eventTimer.value), q.FromSync());
        if !ok { return; }
      }
      assert SendAll(sdo.records, start, q.FromTransmissionType()) == SendAll(sdo.records, sdo.channel, q.FromSync());
      if conf.syncStartValue.Some? {
        if kind != TPDO {
          Finished(sdo.records, sdo.channel);
          return false;
        }
        ok := Step(comm, 6, U8(conf.syncStartValue.value), q.FromMapping());
        if !ok { return; }
      }
      assert SendAll(sdo.records, start, q.FromTransmissionType()) ==
          SendAll(sdo.records, sdo.channel, q.FromMapping());
      if conf.mappings != [] {
        ok := WriteMapping(conf, mapping, q);
        if !ok { return; }
      }
      ok := true;
      assert SendAll(sdo.records, start, q.FromTransmissionType()) == SendAll(sdo.records, sdo.channel, q.End());
      if conf.valid != Some(false) {
        assert [Write(comm, 1, U32(Validated(bits)))] + [] == q.End();
        ok := Step(comm, 1, U32(Validated(bits)), []);
        if !ok { return; }
      }
      Finished(sdo.records, sdo.channel);
    }

    method WriteSettings(conf: Configuration, cobId: bv32) returns (ok: bool)
      requires sdo.records == RecordsOf(kind, n)
      modifies sdo
      ensures var r := SendAll(sdo.records, old(sdo.channel), Request(kind, n, conf, cobId).Plan());
              sdo.channel == r.0 && (ok <==> r.1 && Legal(kind, conf))
    {
      hide SendAll, RecordsOf, Disabling;
      Finished(sdo.records, sdo.channel);
      ghost var q := Request(kind, n, conf, cobId);
      var records := RecordsOf(kind, n);
      if conf.rtr.Some? && kind != TPDO { return false; }
      var bits := Disabling(conf, cobId);
      ok := Step(records.comm, 1, U32(bits), q.FromTransmissionType());
      if ok { ok := WriteOptions(conf, records, bits, q); }
    }

    /** Wherever the configuration stops, and whether or not the last write took effect, every
        event was careful. It succeeds exactly when the options are legal, the mapped objects
        can be counted and no transfer fails; then the object is as requested. With an illegal
        option, an RTR bit leaves the object as it was, a SYNC start value as `LateRefusal`
        says, unless a transfer fails before it is found. */
    method Configure(conf: Configuration) returns (ok: bool)
      requires sdo.records == RecordsOf(kind, n)
      modifies sdo
      ensures var original := old(sdo.channel.pdo);
              var q := Request(kind, n, conf, original.cobId);
              && Witnessed(q, original, q.Plan(), old(sdo.channel), sdo.channel)
              && (ok <==> && Legal(kind, conf) && |conf.mappings| <= 255
                          && Smooth(old(sdo.channel.outcomes), 1 + |q.Plan()|))
              && (ok ==> sdo.channel.pdo == q.Requested(original))
              && (!Legal(kind, conf) && (conf.rtr.Some? || Smooth(old(sdo.channel.outcomes), 1 + |q.Plan()|)) ==>
                    sdo.channel.pdo == if conf.rtr.Some? then original else q.Timed(original))
    {
      hide Witnessed, CarefulRun, SendAll, AllTyped, RecordsOf, Legal, Smooth;
      var cobId;
      ghost var start := sdo.channel;
      ok, cobId := sdo.UploadCobId();
      ghost var q := Request(kind, n, conf, start.pdo.cobId);
      SmoothFromNext(start.outcomes, |q.Plan()|);
      if !ok {
        NothingWitnessed(q, start, sdo.channel);
        return;
      }
      WitnessedAfterUpload(q, start, sdo.channel);
      PlanIsCareful(q, start.pdo);
      EventsAreCareful(q, start.pdo, sdo.channel, q.Plan());
      RunsToTheEnd(sdo.records, sdo.channel, q.Plan());
      if Legal(kind, conf) { PlanIsTyped(q); } else { RejectedPlanIsTyped(q); }
      ok := WriteSettings(conf, cobId);
      if !Legal(kind, conf) && conf.rtr.Some? { NothingChanges(q, start.pdo, start, sdo.channel); }
    }
  }

  lemma NothingWitnessed(q: Request, ch: Channel, end: Channel)
    requires end == ch.(outcomes := end.outcomes)
    ensures Witnessed(q, ch.pdo, q.Plan(), ch, end)
  {
    hide Careful;
    assert end.log[|ch.log|..] == [];
  }

  lemma {:induction false} WitnessedAfterUpload(q: Request, start: Channel, ch: Channel)
    requires ch == start.(outcomes := ch.outcomes)
    ensures forall end :: Witnessed(q, ch.pdo, q.Plan(), ch, end) ==> Witnessed(q, start.pdo, q.Plan(), start, end)
  {
    hide Careful, Chained;
  }

  lemma SmoothFromNext(o: seq<Outcome>, n: nat)
    ensures Smooth(o, 1 + n) <==> Next(o) == Confirmed && Smooth(Rest(o), n)
  {
    assert forall i | 0 < i < |o| :: o[i] == o[1..][i - 1];
    if Smooth(o, 1 + n) {
      forall i | 0 <= i < n && i < |Rest(o)| ensures Rest(o)[i] == Confirmed { assert o[i + 1] == Confirmed; }
    }
  }
}
