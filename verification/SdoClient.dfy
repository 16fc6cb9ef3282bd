/** The SDO client of a CANopen node: expedited and segmented transfers of one object
    dictionary entry (section 7.2.4.3 of CiA 301 v4.2.0), against a drive that conforms
    to the protocol and against one that answers anything at all. */
module SdoClient {
  import opened Bytes
  import opened Wrappers

  // ---------------------------------------------------------------- frames

  const ABORT: byte := 0x80

  /** Command specifier, the three most significant bits. */
  function Specifier(b: byte): nat { b / 0x20 }

  /** Toggle bit of a segment frame (bit 4). */
  function ToggleOf(b: byte): bool { b / 0x10 % 2 == 1 }

  /** Expedited bit of an initiate frame (bit 1). */
  function ExpeditedBit(b: byte): bool { b / 2 % 2 == 1 }

  /** Bit 0: size indicated (initiate frames), last segment (segment frames). */
  function Bit0(b: byte): bool { b % 2 == 1 }

  /** Unused bytes of an expedited frame (bits 2 and 3). */
  function Unused4(b: byte): nat { b / 4 % 4 }

  /** Unused bytes of a segment frame (bits 1 to 3). */
  function Unused7(b: byte): nat { b / 2 % 8 }

  /** The toggle bit of the k-th segment frame: it alternates, starting from 0. */
  predicate Odd(k: nat) { k != 0 && !Odd(k - 1) }

  function BitValue(b: bool): nat { if b then 1 else 0 }

  /** An initiate frame: command byte, address of the entry, four bytes. */
  function Initiate(command: byte, index: uint16, subindex: byte, tail: seq<byte>): Frame
    requires |tail| == 4
  {
    [command] + Encode16(index) + [subindex] + tail
  }

  predicate Addresses(f: Frame, index: uint16, subindex: byte) {
    Decode16(f[1..3]) == index && f[3] == subindex
  }

  /** A download segment frame or an upload segment reply. */
  function Pack(toggle: bool, payload: seq<byte>, last: bool): Frame
    requires |payload| <= 7
  {
    [0x10 * BitValue(toggle) + 2 * (7 - |payload|) + BitValue(last)] + payload + Zeros(7 - |payload|)
  }

  function Payload(f: Frame): (p: seq<byte>)
    ensures |p| == 7 - Unused7(f[0])
  {
    f[1..8 - Unused7(f[0])]
  }

  lemma UnpackPack(toggle: bool, payload: seq<byte>, last: bool)
    requires |payload| <= 7
    ensures var f := Pack(toggle, payload, last);
            Specifier(f[0]) == 0 && ToggleOf(f[0]) == toggle && Bit0(f[0]) == last && Payload(f) == payload
  {
  }

  // ---------------------------------------------------------------- peers

  /** What becomes of one request: the sender refuses it, nothing comes back while the client
      awaits it (or the observer is inactive), or the drive answers. */
  datatype Answer = NotSent | NoReply | Reply(frame: Frame)

  /** How a conforming drive chooses to serve an upload. A `plan` entry proposes the
      length of one segment; sizes out of range fall back to what fits. */
  datatype Style = Style(expedite: bool, sized: bool, plan: seq<nat>)

  datatype Mode =
    | Idle
    | Receiving(index: uint16, subindex: byte, announced: Option<nat>, got: seq<byte>, toggle: bool)
    | Sending(rest: seq<byte>, next: bool, plan: seq<nat>)

  /** A conforming drive: stores what it gets and sends what it stores. */
  datatype Drive = Drive(od: map<(uint16, byte), seq<byte>>, mode: Mode, style: Style)

  /** The peer of the client. A conforming drive answers every request in time; `heard` says
      for the n-th request ever whether its reply comes after the client has registered to
      await it. One that comes before, right after the request was sent, notifies nobody.
      `Arbitrary` stands for every drive, broken or not: it answers the n-th request with
      whatever `answers` says, for ever. */
  datatype Server =
    | Conforming(drive: Drive, heard: nat -> bool, at: nat)
    | Arbitrary(answers: nat -> Answer, at: nat)

  function Aborted(d: Drive, f: Frame): (Drive, Frame) {
    (d.(mode := Idle), [ABORT] + f[1..4] + [0, 0, 0, 8])
  }

  function SegmentSize(plan: seq<nat>, rest: nat): (n: nat)
    requires rest > 0
    ensures 1 <= n <= 7 && n <= rest
  {
    if plan == [] || plan[0] == 0 then Min(7, rest) else Min(plan[0], Min(7, rest))
  }

  function Serve(d: Drive, f: Frame): (Drive, Frame) {
    var index := Decode16(f[1..3]);
    var subindex := f[3];
    var confirm := Initiate(0x60, index, subindex, Zeros(4));
    match Specifier(f[0])
    case 1 =>
      if ExpeditedBit(f[0]) then
        var n := if Bit0(f[0]) then Unused4(f[0]) else 0;
        (d.(od := d.od[(index, subindex) := f[4..8 - n]], mode := Idle), confirm)
      else
        var announced := if Bit0(f[0]) then Some(Decode32(f[4..8])) else None;
        (d.(mode := Receiving(index, subindex, announced, [], false)), confirm)
    case 0 =>
      if d.mode.Receiving? && d.mode.toggle == ToggleOf(f[0]) then
        var got := d.mode.got + Payload(f);
        var reply: Frame := [0x20 + 0x10 * BitValue(d.mode.toggle)] + Zeros(7);
        if !Bit0(f[0]) then
          (d.(mode := d.mode.(got := got, toggle := !d.mode.toggle)), reply)
        else if d.mode.announced in {None, Some(|got|)} then
          (d.(od := d.od[(d.mode.index, d.mode.subindex) := got], mode := Idle), reply)
        else
          Aborted(d, f)
      else
        Aborted(d, f)
    case 2 =>
      if (index, subindex) in d.od && |d.od[(index, subindex)]| < 0x1_0000_0000 then
        var data := d.od[(index, subindex)];
        if d.style.expedite && |data| <= 4 then
          var command := if d.style.sized then 0x43 + 4 * (4 - |data|) else 0x42;
          (d.(mode := Idle), Initiate(command, index, subindex, data + Zeros(4 - |data|)))
        else
          var command, len := if d.style.sized then 0x41 else 0x40, if d.style.sized then |data| else 0;
          (d.(mode := Sending(data, false, d.style.plan)), Initiate(command, index, subindex, Encode32(len)))
      else
        Aborted(d, f)
    case 3 =>
      if d.mode.Sending? && d.mode.next == ToggleOf(f[0]) && d.mode.rest != [] then
        var n := SegmentSize(d.mode.plan, |d.mode.rest|);
        var left := d.mode.rest[n..];
        var reply := Pack(d.mode.next, d.mode.rest[..n], left == []);
        var plan := if d.mode.plan == [] then [] else d.mode.plan[1..];
        (d.(mode := if left == [] then Idle else Sending(left, !d.mode.next, plan)), reply)
      else
        Aborted(d, f)
    case _ =>
      Aborted(d, f)
  }

  function Transfer(s: Server, f: Frame): (Server, Answer) {
    match s
    case Conforming(d, heard, at) =>
      var (d', reply) := Serve(d, f);
      (Conforming(d', heard, at + 1), if heard(at) then Reply(reply) else NoReply)
    case Arbitrary(answers, at) => (Arbitrary(answers, at + 1), answers(at))
  }

  /** An answer that gets past `performTransfer`. */
  predicate Usable(a: Answer) {
    a.Reply? && a.frame[0] != ABORT
  }

  // ---------------------------------------------------------------- download, specified

  /** One request and what became of it. */
  datatype Event = Event(request: Frame, answer: Answer)

  function SegmentCount(n: nat): nat { (n + 6) / 7 }

  function Segment(data: seq<byte>, k: nat): Frame
    requires 7 * k < |data|
  {
    Pack(Odd(k), data[7 * k..Min(7 * k + 7, |data|)], |data| <= 7 * k + 7)
  }

  function Segments(data: seq<byte>): (fs: seq<Frame>)
    ensures |fs| == SegmentCount(|data|)
  {
    seq(SegmentCount(|data|), k requires 0 <= k < SegmentCount(|data|) => Segment(data, k))
  }

  /** Every frame a download sends when nothing goes wrong. */
  function DownloadPlan(data: seq<byte>, index: uint16, subindex: byte): (plan: seq<Frame>)
    requires |data| < 0x1_0000_0000
    ensures |plan| > 0
  {
    if |data| <= 4 then
      [Initiate(0x23 + 4 * (4 - |data|), index, subindex, data + Zeros(4 - |data|))]
    else
      [Initiate(0x21, index, subindex, Encode32(|data|))] + Segments(data)
  }

  /** The answer that lets a download go past frame `k` of its plan. */
  predicate Acknowledges(a: Answer, k: nat, index: uint16, subindex: byte) {
    Usable(a) &&
    if k == 0 then
      Specifier(a.frame[0]) == 3 && Addresses(a.frame, index, subindex)
    else
      Specifier(a.frame[0]) == 1 && ToggleOf(a.frame[0]) == !Odd(k)
  }

  /** Send the plan from frame `k` on, one at a time, up to the first frame that is not
      acknowledged. */
  function Exchange(s: Server, plan: seq<Frame>, k: nat, index: uint16, subindex: byte)
    : (r: (Server, seq<Event>, bool))
    requires k <= |plan|
    decreases |plan| - k
  {
    if k == |plan| then (s, [], true)
    else
      var (s', a) := Transfer(s, plan[k]);
      if Acknowledges(a, k, index, subindex) then
        var (s'', log, ok) := Exchange(s', plan, k + 1, index, subindex);
        (s'', [Event(plan[k], a)] + log, ok)
      else
        (s', [Event(plan[k], a)], false)
  }

  // ---------------------------------------------------------------- upload, specified

  /** A reply to an upload segment request that the client accepts. */
  predicate CarriesSegment(a: Answer, toggle: bool) {
    Usable(a) && Specifier(a.frame[0]) == 0 && ToggleOf(a.frame[0]) == toggle
  }

  function SegmentRequest(toggle: bool): Frame {
    [if toggle then 0x70 else 0x60] + Zeros(7)
  }

  /** ... and that is not marked last, so that it asks for more. */
  predicate Continues(a: Answer, toggle: bool) {
    CarriesSegment(a, toggle) && !Bit0(a.frame[0])
  }

  /** What remains of an exchange, put after the events that precede it. */
  function After(events: seq<Event>, r: (Server, seq<Event>, bool)): (Server, seq<Event>, bool) {
    (r.0, events + r.1, r.2)
  }

  /** Where an upload stands: still asking for segments, or returned to its caller. */
  datatype Verdict = Asking | Returned(ok: bool)

  /** What remains of an upload, put after the events and the bytes that precede it. */
  function Behind(events: seq<Event>, data: seq<byte>, r: (Server, seq<Event>, Verdict, seq<byte>))
    : (Server, seq<Event>, Verdict, seq<byte>)
  {
    (r.0, events + r.1, r.2, data + r.3)
  }

  /** Ask for segments until one is marked last or is not acceptable, `rounds` times at
      most. */
  function Collect(s: Server, toggle: bool, rounds: nat): (r: (Server, seq<Event>, Verdict, seq<byte>))
    decreases rounds
  {
    if rounds == 0 then (s, [], Asking, [])
    else
      var request := SegmentRequest(toggle);
      var (s', a) := Transfer(s, request);
      if !CarriesSegment(a, toggle) then (s', [Event(request, a)], Returned(false), [])
      else if Bit0(a.frame[0]) then (s', [Event(request, a)], Returned(true), Payload(a.frame))
      else
        var (s'', log, verdict, data) := Collect(s', !toggle, rounds - 1);
        (s'', [Event(request, a)] + log, verdict, Payload(a.frame) + data)
  }

  /** The reply after which the client asks for segments, given room for `size` bytes. */
  predicate OpensSegments(a: Answer, size: uint32, index: uint16, subindex: byte) {
    && Usable(a) && Specifier(a.frame[0]) == 2 && Addresses(a.frame, index, subindex)
    && !ExpeditedBit(a.frame[0]) && Decode32(a.frame[4..8]) <= size
  }

  /** A whole upload into room for `size` bytes, of which `rounds` segments are watched. */
  function Uploading(s: Server, size: uint32, index: uint16, subindex: byte, rounds: nat)
    : (Server, seq<Event>, Verdict, seq<byte>)
  {
    var request := Initiate(0x40, index, subindex, Zeros(4));
    var (s', a) := Transfer(s, request);
    var log := [Event(request, a)];
    if !Usable(a) || Specifier(a.frame[0]) != 2 || !Addresses(a.frame, index, subindex) then
      (s', log, Returned(false), [])
    else if ExpeditedBit(a.frame[0]) then
      if Bit0(a.frame[0]) && size != 4 - Unused4(a.frame[0]) then (s', log, Returned(false), [])
      else (s', log, Returned(true), a.frame[4..4 + Min(size, 4)])
    else if size < Decode32(a.frame[4..8]) then
      (s', log, Returned(false), [])
    else
      var (s'', more, verdict, data) := Collect(s', false, rounds);
      (s'', log + more, verdict, data)
  }

  // ---------------------------------------------------------------- the client

  class Client {
    /** The peer at the other end of the bus. */
    var server: Server
    /** Every request so far, with its outcome. */
    var log: seq<Event>

    constructor (server: Server)
      ensures this.server == server && log == []
    {
      this.server := server;
      log := [];
    }

    method PerformTransfer(request: Frame) returns (ok: bool, response: Frame)
      modifies this
      ensures var a := Transfer(old(server), request).1;
              && server == Transfer(old(server), request).0
              && log == old(log) + [Event(request, a)]
              && (ok <==> a.Reply? && a.frame[0] != 0x80) && (ok ==> a == Reply(response))
    {
      var (s, a) := Transfer(server, request);
      server := s;
      log := log + [Event(request, a)];
      response := if a.Reply? then a.frame else Zeros(8);
      ok := a.Reply? && response[0] != ABORT;
    }

    /** The sequence of requests is the download plan cut at the first frame that is not
        acknowledged. */
    method DownloadInternal(data: seq<byte>, index: uint16, subindex: byte) returns (ok: bool)
      requires |data| < 0x1_0000_0000
      modifies this
      ensures (server, log, ok) ==
              After(old(log), Exchange(old(server), DownloadPlan(data, index, subindex), 0, index, subindex))
    {
      hide Exchange, Transfer, Initiate, Encode32, Specifier, Addresses, Segments;
      ghost var plan := DownloadPlan(data, index, subindex);
      var size := |data|;
      var request: Frame, confirm: Frame;
      Unroll(server, plan, 0, index, subindex, log);
      if size <= 4 {
        request := Initiate(0x21 + 2 + 4 * (4 - size), index, subindex, data + Zeros(4 - size));
      } else {
        request := Initiate(0x21, index, subindex, Encode32(size));
      }
      ok, confirm := PerformTransfer(request);
      if !ok { return; }
      if Specifier(confirm[0]) != 3 || !Addresses(confirm, index, subindex) { return false; }
      if size > 4 {
        ok := DownloadSegments(data, index, subindex);
      } else {
        NothingLeft(server, plan, index, subindex, log);
      }
    }

    /** The segmented half of `DownloadInternal`: everything after the first frame. */
    method DownloadSegments(data: seq<byte>, index: uint16, subindex: byte) returns (ok: bool)
      requires 4 < |data| < 0x1_0000_0000
      modifies this
      ensures (server, log, ok) ==
              After(old(log), Exchange(old(server), DownloadPlan(data, index, subindex), 1, index, subindex))
    {
      hide Exchange, Transfer, DownloadPlan, Pack, Acknowledges, Specifier, ToggleOf;
      ghost var plan := DownloadPlan(data, index, subindex);
      ghost var whole := After(log, Exchange(server, plan, 1, index, subindex));
      PlanAt(data, index, subindex, 0);
      var size, sent, toggle, last := |data|, 0, false, false;
      ghost var k := 0;
      ok := true;
      while !last
        invariant k <= sent <= size && toggle == Odd(k) && ok && k < |plan|
        invariant if last then k + 1 == |plan| else sent == 7 * k < size
        invariant After(log, Exchange(server, plan, k + 1, index, subindex)) == whole
        decreases size - sent, !last
      {
        var actual;
        if size - sent <= 7 {
          actual := size - sent;
          last := true;
        } else {
          actual := 7;
        }
        var request := Pack(toggle, data[sent..sent + actual], last);
        PlanAt(data, index, subindex, k);
        assert request == plan[k + 1];
        Unroll(server, plan, k + 1, index, subindex, log);
        ghost var before := server;
        var confirm;
        ok, confirm := PerformTransfer(request);
        ghost var answer := Transfer(before, request).1;
        ghost var acknowledged := Acknowledges(answer, k + 1, index, subindex);
        assert whole == if acknowledged then After(log, Exchange(server, plan, k + 2, index, subindex))
                        else (server, log, false);
        SegmentAcknowledged(answer, k + 1, index, subindex);
        assert acknowledged <==> ok && Specifier(confirm[0]) == 1 && ToggleOf(confirm[0]) == toggle;
        if !ok { return; }
        if Specifier(confirm[0]) != 1 { return false; }
        if ToggleOf(confirm[0]) != toggle { return false; }
        sent := sent + actual;
        toggle := !toggle;
        k := k + 1;
      }
      NothingLeft(server, plan, index, subindex, log);
    }

    /** The bytes written and the verdict are those of `Uploading`. The loop of an upload has
        no bound of its own: `rounds` says how many of its turns are watched, and the verdict
        is `Asking` if it goes on after that. */
    method UploadInternal(size: uint32, index: uint16, subindex: byte, rounds: nat)
      returns (verdict: Verdict, data: seq<byte>)
      modifies this
      ensures (server, log, verdict, data) ==
              Behind(old(log), [], Uploading(old(server), size, index, subindex, rounds))
    {
      hide Collect, Transfer, Initiate, Specifier, Addresses, ExpeditedBit, Bit0, Unused4, Decode32;
      data := [];
      ghost var uploading := Uploading(server, size, index, subindex, rounds);
      assert [] + uploading.3 == uploading.3;
      var request := Initiate(0x40, index, subindex, Zeros(4));
      var ok, response := PerformTransfer(request);
      if !ok { return Returned(false), data; }
      if Specifier(response[0]) != 2 || !Addresses(response, index, subindex) { return Returned(false), data; }
      if ExpeditedBit(response[0]) {
        if Bit0(response[0]) {
          var actual := 4 - Unused4(response[0]);
          if size != actual { return Returned(false), data; }
        }
        data := response[4..4 + Min(size, 4)];
        verdict := Returned(true);
      } else {
        var len := Decode32(response[4..8]);
        if size < len { return Returned(false), data; }
        assert log == old(log) + [Event(request, Reply(response))];
        ghost var (s'', more, done, bytes) := Collect(server, false, rounds);
        assert log + more == old(log) + ([Event(request, Reply(response))] + more);
        verdict, data := UploadSegments(rounds);
      }
    }

    /** The segmented half of `UploadInternal`. */
    method UploadSegments(rounds: nat) returns (verdict: Verdict, data: seq<byte>)
      modifies this
      ensures (server, log, verdict, data) == Behind(old(log), [], Collect(old(server), false, rounds))
    {
      hide Transfer, SegmentRequest, Specifier, ToggleOf, Payload, Collect;
      data := [];
      var toggle, last, left := false, false, rounds;
      ghost var whole := Behind(log, [], Collect(server, false, rounds));
      while !last && left > 0
        invariant if last then (server, log, Returned(true), data) == whole
                  else Behind(log, data, Collect(server, toggle, left)) == whole
        decreases left
      {
        UnrollCollect(server, toggle, left, log, data);
        var ok, response := PerformTransfer(SegmentRequest(toggle));
        if !ok { return Returned(false), data; }
        if Specifier(response[0]) != 0 { return Returned(false), data; }
        if ToggleOf(response[0]) != toggle { return Returned(false), data; }
        data := data + Payload(response);
        last := Bit0(response[0]);
        toggle, left := !toggle, left - 1;
      }
      if !last { NothingWatched(server, toggle, log, data); }
      verdict := if last then Returned(true) else Asking;
    }
  }

  /** One step of an exchange, seen from its start. */
  lemma Unroll(s: Server, plan: seq<Frame>, k: nat, index: uint16, subindex: byte, events: seq<Event>)
    requires k < |plan|
    ensures var (s', a) := Transfer(s, plan[k]);
            var step := events + [Event(plan[k], a)];
            After(events, Exchange(s, plan, k, index, subindex)) ==
            if Acknowledges(a, k, index, subindex) then After(step, Exchange(s', plan, k + 1, index, subindex))
            else (s', step, false)
  {
    var (s', a) := Transfer(s, plan[k]);
    if Acknowledges(a, k, index, subindex) {
      var rest := Exchange(s', plan, k + 1, index, subindex).1;
      assert events + ([Event(plan[k], a)] + rest) == (events + [Event(plan[k], a)]) + rest;
    }
  }

  lemma NothingLeft(s: Server, plan: seq<Frame>, index: uint16, subindex: byte, events: seq<Event>)
    ensures After(events, Exchange(s, plan, |plan|, index, subindex)) == (s, events, true)
  {
    assert events + [] == events;
  }

  /** One step of an upload, seen from its start. */
  lemma UnrollCollect(s: Server, toggle: bool, rounds: nat, events: seq<Event>, data: seq<byte>)
    requires rounds > 0
    ensures var (s', a) := Transfer(s, SegmentRequest(toggle));
            var step := events + [Event(SegmentRequest(toggle), a)];
            Behind(events, data, Collect(s, toggle, rounds)) ==
            if !CarriesSegment(a, toggle) then (s', step, Returned(false), data)
            else if Bit0(a.frame[0]) then (s', step, Returned(true), data + Payload(a.frame))
            else Behind(step, data + Payload(a.frame), Collect(s', !toggle, rounds - 1))
  {
    hide Transfer, SegmentRequest, Specifier, ToggleOf, Payload;
    var (s', a) := Transfer(s, SegmentRequest(toggle));
    assert data + [] == data;
    if Continues(a, toggle) {
      var r := Collect(s', !toggle, rounds - 1);
      var e := Event(SegmentRequest(toggle), a);
      assert events + ([e] + r.1) == (events + [e]) + r.1;
      assert data + (Payload(a.frame) + r.3) == (data + Payload(a.frame)) + r.3;
    }
  }

  lemma NothingWatched(s: Server, toggle: bool, events: seq<Event>, data: seq<byte>)
    ensures Behind(events, data, Collect(s, toggle, 0)) == (s, events, Asking, data)
  {
    assert events + [] == events && data + [] == data;
  }

  lemma SegmentAcknowledged(a: Answer, k: nat, index: uint16, subindex: byte)
    requires k > 0
    ensures Acknowledges(a, k, index, subindex) <==>
            Usable(a) && Specifier(a.frame[0]) == 1 && ToggleOf(a.frame[0]) == !Odd(k)
  {
  }

  lemma PlanAt(data: seq<byte>, index: uint16, subindex: byte, k: nat)
    requires 4 < |data| < 0x1_0000_0000 && 7 * k < |data|
    ensures k + 1 < |DownloadPlan(data, index, subindex)|
    ensures DownloadPlan(data, index, subindex)[k + 1] ==
            Pack(Odd(k), data[7 * k..Min(7 * k + 7, |data|)], |data| <= 7 * k + 7)
    ensures k + 2 == |DownloadPlan(data, index, subindex)| <==> |data| <= 7 * k + 7
  {
    assert Segments(data)[k] == Segment(data, k);
  }
}
