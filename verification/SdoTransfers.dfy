/** What the SDO client's transfers guarantee, against every peer and against a
    conforming drive. */
module SdoTransfers {
  import opened Bytes
  import opened SdoClient
  import opened Wrappers

  // ---------------------------------------------------------------- strings

  /** The characters of a buffer up to its terminator. */
  function Text(buffer: seq<byte>): seq<byte> {
    if buffer == [] || buffer[0] == 0 then [] else [buffer[0]] + Text(buffer[1..])
  }

  lemma {:induction false} TextOf(s: seq<byte>, zeros: nat)
    ensures Text(s + Zeros(zeros)) == s <==> 0 !in s
  {
    if s != [] {
      TextOf(s[1..], zeros);
      assert (s + Zeros(zeros))[1..] == s[1..] + Zeros(zeros);
      assert s == [s[0]] + s[1..];
    }
  }

  /** The room for a string. */
  const MAX_LEN: uint32 := 100

  // ---------------------------------------------------------------- the segmentation

  function Payloads(fs: seq<Frame>): seq<byte> {
    if fs == [] then [] else Payload(fs[0]) + Payloads(fs[1..])
  }

  /** Frame `f` may stand at place `k` of a segmentation of `count` frames. */
  predicate WellPlaced(f: Frame, k: nat, count: nat) {
    && Specifier(f[0]) == 0
    && ToggleOf(f[0]) == Odd(k)
    && Bit0(f[0]) == (k + 1 == count)
    && (if k + 1 == count then Unused7(f[0]) < 7 else Unused7(f[0]) == 0)
    && f[8 - Unused7(f[0])..] == Zeros(Unused7(f[0]))
  }

  /** `fs` is a segmentation of `data` according to section 7.2.4.3.5 of CiA 301: full
      segments but for the last, alternating toggle bits, one continuation mark, zero
      padding, and the payloads in order. `from` frames precede them. */
  predicate IsSegmentation(fs: seq<Frame>, data: seq<byte>, from: nat) {
    && fs != []
    && (forall k | 0 <= k < |fs| :: WellPlaced(fs[k], from + k, from + |fs|))
    && Payloads(fs) == data
  }

  /** The command byte of a well-placed frame leaves no choice. */
  lemma WellPlacedIsPacked(f: Frame, k: nat, count: nat)
    requires WellPlaced(f, k, count)
    ensures f == Pack(Odd(k), Payload(f), k + 1 == count)
  {
    var n := Unused7(f[0]);
    assert f[0] == 0x20 * Specifier(f[0]) + 0x10 * BitValue(ToggleOf(f[0])) + 2 * n + BitValue(Bit0(f[0]));
    assert f == [f[0]] + f[1..8 - n] + f[8 - n..];
  }

  lemma PackedIsWellPlaced(payload: seq<byte>, k: nat, count: nat)
    requires |payload| <= 7 && if k + 1 == count then |payload| > 0 else |payload| == 7
    ensures WellPlaced(Pack(Odd(k), payload, k + 1 == count), k, count)
  {
    UnpackPack(Odd(k), payload, k + 1 == count);
  }

  /** `data` from segment `k` on. */
  function SegmentsFrom(data: seq<byte>, k: nat): seq<Frame>
    requires k <= SegmentCount(|data|)
  {
    Segments(data)[k..]
  }

  /** A full segment in front of a segmentation of the rest. */
  predicate IsSplit(fs: seq<Frame>, data: seq<byte>, k: nat)
    requires fs != []
  {
    && fs[0] == Pack(Odd(k), Payload(fs[0]), false) && |Payload(fs[0])| == 7
    && Payload(fs[0]) <= data
    && IsSegmentation(fs[1..], data[7..], k + 1)
  }

  lemma SplitsOff(fs: seq<Frame>, data: seq<byte>, k: nat)
    requires |fs| > 1 && IsSegmentation(fs, data, k)
    ensures IsSplit(fs, data, k)
  {
    hide WellPlaced;
    var rest := fs[1..];
    assert Payloads(fs) == Payload(fs[0]) + Payloads(rest);
    assert WellPlaced(fs[0], k + 0, k + |fs|);
    WellPlacedIsPacked(fs[0], k, k + |fs|);
    WellPlacedIsFull(fs[0], k, k + |fs|);
    forall j | 0 <= j < |rest| ensures WellPlaced(rest[j], k + 1 + j, k + 1 + |rest|) {
      assert WellPlaced(fs[j + 1], k + (j + 1), k + |fs|);
    }
  }

  lemma WellPlacedIsFull(f: Frame, k: nat, count: nat)
    requires WellPlaced(f, k, count) && k + 1 < count
    ensures |Payload(f)| == 7
  {
  }

  lemma JoinsOn(fs: seq<Frame>, data: seq<byte>, k: nat)
    requires |fs| > 1 && IsSplit(fs, data, k)
    ensures IsSegmentation(fs, data, k)
  {
    hide WellPlaced;
    var rest := fs[1..];
    assert Payloads(fs) == Payload(fs[0]) + Payloads(rest);
    PackedIsWellPlaced(Payload(fs[0]), k, k + |fs|);
    forall j | 0 <= j < |fs| ensures WellPlaced(fs[j], k + j, k + |fs|) {
      if j > 0 { assert WellPlaced(rest[j - 1], k + 1 + (j - 1), k + 1 + |rest|); }
    }
  }

  lemma OneSegment(f: Frame, data: seq<byte>, k: nat)
    requires IsSegmentation([f], data, k)
    ensures 0 < |data| <= 7 && f == Pack(Odd(k), data, true)
  {
    assert Payloads([f]) == Payload(f) + [] == Payload(f);
    assert WellPlaced([f][0], k + 0, k + 1);
    WellPlacedIsPacked(f, k, k + 1);
  }

  lemma SegmentationEnds(f: Frame, data: seq<byte>, k: nat)
    ensures IsSegmentation([f], data, k) <==> 0 < |data| <= 7 && f == Pack(Odd(k), data, true)
  {
    if IsSegmentation([f], data, k) { OneSegment(f, data, k); }
    if 0 < |data| <= 7 && f == Pack(Odd(k), data, true) {
      assert Payloads([f]) == Payload(f) + [] == Payload(f);
      PackedIsWellPlaced(data, k, k + 1);
      UnpackPack(Odd(k), data, true);
    }
  }

  /** A segmentation is a full segment in front of a segmentation of the rest. */
  lemma SegmentationSplits(fs: seq<Frame>, data: seq<byte>, k: nat)
    requires |fs| > 1
    ensures IsSegmentation(fs, data, k) <==> IsSplit(fs, data, k)
  {
    hide IsSegmentation, IsSplit;
    if IsSegmentation(fs, data, k) { SplitsOff(fs, data, k); }
    if IsSplit(fs, data, k) { JoinsOn(fs, data, k); }
  }

  lemma {:induction false} SegmentationIsUnique(fs: seq<Frame>, data: seq<byte>, k: nat)
    requires 7 * k < |data|
    ensures IsSegmentation(fs, data[7 * k..], k) <==> fs == SegmentsFrom(data, k)
    decreases |data| - 7 * k
  {
    var rest, all := data[7 * k..], SegmentsFrom(data, k);
    assert all[0] == Segment(data, k);
    if |rest| <= 7 {
      assert all == [all[0]];
      assert data[7 * k..Min(7 * k + 7, |data|)] == rest;
      if |fs| == 1 {
        assert fs == [fs[0]];
        SegmentationEnds(fs[0], rest, k);
      } else if |fs| > 1 {
        SegmentationSplits(fs, rest, k);
      }
    } else {
      assert rest[7..] == data[7 * (k + 1)..] && all[1..] == SegmentsFrom(data, k + 1);
      assert data[7 * k..Min(7 * k + 7, |data|)] == rest[..7];
      assert fs != [] ==> (fs == all <==> fs[0] == all[0] && fs[1..] == all[1..]);
      UnpackPack(Odd(k), rest[..7], false);
      if |fs| == 1 {
        SegmentationEnds(fs[0], rest, k);
        assert fs == [fs[0]];
      } else if |fs| > 1 {
        SegmentationSplits(fs, rest, k);
        SegmentationIsUnique(fs[1..], data, k + 1);
      }
    }
  }

  /** The client's segments are the only segmentation there is. */
  lemma SegmentsAreTheSegmentation(fs: seq<Frame>, data: seq<byte>)
    requires data != []
    ensures IsSegmentation(fs, data, 0) <==> fs == Segments(data)
    ensures |Segments(data)| == (|data| + 6) / 7
  {
    assert data[7 * 0..] == data && SegmentsFrom(data, 0) == Segments(data);
    SegmentationIsUnique(fs, data, 0);
  }

  // ---------------------------------------------------------------- any peer

  /** `log` is what an exchange leaves behind when it starts at frame `k`. */
  predicate IsRun(log: seq<Event>, plan: seq<Frame>, k: nat, index: uint16, subindex: byte, ok: bool)
    requires k <= |plan|
  {
    && |log| <= |plan| - k
    && (forall i | 0 <= i < |log| :: log[i].request == plan[k + i])
    && (forall i | 0 <= i < |log| :: Acknowledges(log[i].answer, k + i, index, subindex) <==> (ok || i < |log| - 1))
    && (if ok then |log| == |plan| - k else log != [])
  }

  lemma RunExtends(e: Event, log: seq<Event>, plan: seq<Frame>, k: nat, index: uint16, subindex: byte, ok: bool)
    requires k < |plan| && IsRun(log, plan, k + 1, index, subindex, ok)
    requires e.request == plan[k] && Acknowledges(e.answer, k, index, subindex)
    ensures IsRun([e] + log, plan, k, index, subindex, ok)
  {
    hide Acknowledges;
    var all := [e] + log;
    forall i | 0 <= i < |all|
      ensures all[i].request == plan[k + i]
      ensures Acknowledges(all[i].answer, k + i, index, subindex) <==> (ok || i < |all| - 1)
    {
      if i > 0 { assert all[i] == log[i - 1] && k + i == k + 1 + (i - 1); }
    }
  }

  lemma {:induction false} ExchangeWithAnyone(s: Server, plan: seq<Frame>, k: nat, index: uint16, subindex: byte)
    requires k <= |plan|
    ensures var (s', log, ok) := Exchange(s, plan, k, index, subindex);
            IsRun(log, plan, k, index, subindex, ok)
    decreases |plan| - k
  {
    hide IsRun, Transfer, Acknowledges;
    if k == |plan| {
      EmptyRun(plan, k, index, subindex);
    } else {
      var (s', a) := Transfer(s, plan[k]);
      if Acknowledges(a, k, index, subindex) {
        ExchangeWithAnyone(s', plan, k + 1, index, subindex);
        var (_, more, ok) := Exchange(s', plan, k + 1, index, subindex);
        RunExtends(Event(plan[k], a), more, plan, k, index, subindex, ok);
      } else {
        RunStops(Event(plan[k], a), plan, k, index, subindex);
      }
    }
  }

  lemma EmptyRun(plan: seq<Frame>, k: nat, index: uint16, subindex: byte)
    requires k == |plan|
    ensures IsRun([], plan, k, index, subindex, true)
  {
  }

  lemma RunStops(e: Event, plan: seq<Frame>, k: nat, index: uint16, subindex: byte)
    requires k < |plan| && e.request == plan[k] && !Acknowledges(e.answer, k, index, subindex)
    ensures IsRun([e], plan, k, index, subindex, false)
  {
    hide Acknowledges;
    assert k + 0 == k;
  }

  /** A download, whatever the peer answers: the requests are a prefix of the plan, no
      frame follows one that was not acknowledged, and success means that the whole plan
      was acknowledged, frame by frame. */
  lemma DownloadWithAnyone(s: Server, data: seq<byte>, index: uint16, subindex: byte)
    requires |data| < 0x1_0000_0000
    ensures var plan := DownloadPlan(data, index, subindex);
            var (s', log, ok) := Exchange(s, plan, 0, index, subindex);
            && 1 <= |log| <= |plan| && |plan| <= 1 + (|data| + 6) / 7
            && (forall i | 0 <= i < |log| :: log[i].request == plan[i])
            && (ok <==> |log| == |plan| && forall i | 0 <= i < |log| :: Acknowledges(log[i].answer, i, index, subindex))
            && (!ok ==> forall i | 0 <= i < |log| ::
                  Acknowledges(log[i].answer, i, index, subindex) <==> i < |log| - 1)
  {
    var plan := DownloadPlan(data, index, subindex);
    ExchangeWithAnyone(s, plan, 0, index, subindex);
    var (_, log, ok) := Exchange(s, plan, 0, index, subindex);
    forall i | 0 <= i < |log|
      ensures log[i].request == plan[i]
      ensures Acknowledges(log[i].answer, i, index, subindex) <==> (ok || i < |log| - 1)
    {
      assert log[i].request == plan[0 + i];
      assert Acknowledges(log[i].answer, 0 + i, index, subindex) <==> (ok || i < |log| - 1);
    }
    if |log| == |plan| && !ok {
      assert !Acknowledges(log[|log| - 1].answer, |log| - 1, index, subindex);
    }
  }

  // ---------------------------------------------------------------- what is accepted, byte by byte

  lemma {:induction false} OddIsParity(k: nat)
    ensures Odd(k) <==> k % 2 == 1
  {
    if k > 0 { OddIsParity(k - 1); }
  }

  /** The bytes that address an entry. */
  function AddressBytes(index: uint16, subindex: byte): seq<byte> { [index % 0x100, index / 0x100, subindex] }

  lemma AddressOf(f: Frame, index: uint16, subindex: byte)
    ensures Addresses(f, index, subindex) <==> f[1..4] == AddressBytes(index, subindex)
  {
    assert f[1..3] == [f[1], f[2]] && f[1..4] == [f[1], f[2], f[3]];
  }

  /** The first frame of a download: the data themselves, and how many of the four bytes are not
      used; or their size, least significant byte first. */
  lemma FirstFrameBytes(data: seq<byte>, index: uint16, subindex: byte)
    requires |data| < 0x1_0000_0000
    ensures var n, at := |data|, AddressBytes(index, subindex);
            DownloadPlan(data, index, subindex)[0] ==
            if n <= 4 then [0x23 + 4 * (4 - n)] + at + data + Zeros(4 - n)
            else [0x21] + at + [n % 0x100, n / 0x100 % 0x100, n / 0x1_0000 % 0x100, n / 0x100_0000]
  {
  }

  /** A download goes on after a confirmation with specifier 3 and the address of its entry, then
      after segment confirmations with specifier 1 and the toggle bit of their segment. */
  lemma AcknowledgedBytes(a: Answer, k: nat, index: uint16, subindex: byte)
    ensures Acknowledges(a, k, index, subindex) <==>
            a.Reply? &&
            if k == 0 then 0x60 <= a.frame[0] < 0x80 && a.frame[1..4] == AddressBytes(index, subindex)
            else 0x20 + 0x10 * ((k - 1) % 2) <= a.frame[0] < 0x30 + 0x10 * ((k - 1) % 2)
  {
    OddIsParity(k);
    if a.Reply? { AddressOf(a.frame, index, subindex); }
  }

  /** The request for a segment, and the replies that an upload takes as the segment or as the last
      one: specifier 0 and the toggle bit of the request. */
  lemma SegmentBytes(a: Answer, k: nat)
    ensures SegmentRequest(Odd(k)) == [0x60 + 0x10 * (k % 2), 0, 0, 0, 0, 0, 0, 0]
    ensures CarriesSegment(a, Odd(k)) <==> a.Reply? && 0x10 * (k % 2) <= a.frame[0] < 0x10 + 0x10 * (k % 2)
    ensures CarriesSegment(a, Odd(k)) ==>
              Payload(a.frame) == a.frame[1..8 - a.frame[0] / 2 % 8] && (IsFinal(a, Odd(k)) <==> a.frame[0] % 2 == 1)
  {
    OddIsParity(k);
  }

  /** The request that opens an upload, and what becomes of it after a reply that has not specifier
      2 or is for another entry. */
  lemma OpeningBytes(s: Server, size: uint32, index: uint16, subindex: byte, rounds: nat)
    ensures var request := [0x40] + AddressBytes(index, subindex) + [0, 0, 0, 0];
            var (s', a) := Transfer(s, request);
            var (end, log, verdict, data) := Uploading(s, size, index, subindex, rounds);
            && log != [] && log[0] == Event(request, a)
            && (!(a.Reply? && 0x40 <= a.frame[0] < 0x60 && a.frame[1..4] == AddressBytes(index, subindex)) ==>
                  end == s' && |log| == 1 && verdict == Returned(false) && data == [])
  {
    hide Transfer, Collect;
    var request := [0x40] + AddressBytes(index, subindex) + [0, 0, 0, 0];
    assert Initiate(0x40, index, subindex, Zeros(4)) == request;
    var (_, a) := Transfer(s, request);
    if a.Reply? { AddressOf(a.frame, index, subindex); }
  }

  // ---------------------------------------------------------------- an upload from any peer

  /** The payloads of the segments that an upload accepts, in order; the first event is its
      k-th. */
  function Accepted(log: seq<Event>, k: nat): seq<byte> {
    if log == [] then []
    else
      (if CarriesSegment(log[0].answer, Odd(k)) then Payload(log[0].answer.frame) else []) +
      Accepted(log[1..], k + 1)
  }

  predicate IsFinal(a: Answer, toggle: bool) {
    CarriesSegment(a, toggle) && Bit0(a.frame[0])
  }

  /** How many bytes the accepted segments carry. */
  function Volume(log: seq<Event>, k: nat): nat {
    if log == [] then 0
    else
      (if CarriesSegment(log[0].answer, Odd(k)) then 7 - Unused7(log[0].answer.frame[0]) else 0) +
      Volume(log[1..], k + 1)
  }

  lemma {:induction false} VolumeIsLength(log: seq<Event>, k: nat)
    ensures |Accepted(log, k)| == Volume(log, k)
  {
    hide CarriesSegment, Unused7;
    if log != [] { VolumeIsLength(log[1..], k + 1); }
  }

  /** What `rounds` turns of the loop leave behind, from the k-th segment on. */
  predicate IsCollection(log: seq<Event>, k: nat, rounds: nat, verdict: Verdict, data: seq<byte>) {
    && (if verdict.Asking? then |log| == rounds else 0 < |log| <= rounds)
    && (forall i | 0 <= i < |log| :: log[i].request == SegmentRequest(Odd(k + i)))
    && (forall i | 0 <= i < |log| ::
          CarriesSegment(log[i].answer, Odd(k + i)) <==> (verdict != Returned(false) || i < |log| - 1))
    && (forall i | 0 <= i < |log| ::
          IsFinal(log[i].answer, Odd(k + i)) <==> (verdict == Returned(true) && i == |log| - 1))
    && data == Accepted(log, k)
  }

  lemma {:induction false} CollectionExtends(e: Event, log: seq<Event>, k: nat, rounds: nat, verdict: Verdict,
                                             data: seq<byte>)
    requires IsCollection(log, k + 1, rounds, verdict, data) && e.request == SegmentRequest(Odd(k))
    requires CarriesSegment(e.answer, Odd(k)) && !IsFinal(e.answer, Odd(k))
    ensures IsCollection([e] + log, k, rounds + 1, verdict, Payload(e.answer.frame) + data)
  {
    hide Specifier, ToggleOf, Payload, SegmentRequest, IsFinal;
    var all := [e] + log;
    assert all[1..] == log;
    forall i | 0 <= i < |all|
      ensures all[i].request == SegmentRequest(Odd(k + i))
      ensures CarriesSegment(all[i].answer, Odd(k + i)) <==> (verdict != Returned(false) || i < |all| - 1)
      ensures IsFinal(all[i].answer, Odd(k + i)) <==> (verdict == Returned(true) && i == |all| - 1)
    {
      if i > 0 { assert all[i] == log[i - 1] && k + i == k + 1 + (i - 1); }
    }
  }

  /** A segmented upload, whatever the peer answers: requests and accepted replies
      alternate their toggle bits, success means that the final reply, and no other, is
      marked last, the data are the payloads accepted, in order, and as long as those together,
      and the upload goes on asking otherwise. */
  lemma {:induction false} CollectWithAnyone(s: Server, k: nat, rounds: nat)
    ensures var (s', log, verdict, data) := Collect(s, Odd(k), rounds);
            IsCollection(log, k, rounds, verdict, data) && |data| == Volume(log, k)
    decreases rounds
  {
    hide IsCollection, Accepted, Volume, Transfer, SegmentRequest, Specifier, ToggleOf, Payload, Bit0;
    if rounds == 0 {
      NothingCollected(k);
    } else {
      var request := SegmentRequest(Odd(k));
      var (s', a) := Transfer(s, request);
      if CarriesSegment(a, Odd(k)) && !Bit0(a.frame[0]) {
        CollectWithAnyone(s', k + 1, rounds - 1);
        assert Odd(k + 1) == !Odd(k);
        var (_, more, verdict, data) := Collect(s', Odd(k + 1), rounds - 1);
        CollectionExtends(Event(request, a), more, k, rounds - 1, verdict, data);
      } else {
        CollectionEnds(Event(request, a), k, rounds);
      }
    }
    var (_, log, verdict, data) := Collect(s, Odd(k), rounds);
    VolumeOfCollection(log, k, rounds, verdict, data);
  }

  lemma VolumeOfCollection(log: seq<Event>, k: nat, rounds: nat, verdict: Verdict, data: seq<byte>)
    requires IsCollection(log, k, rounds, verdict, data)
    ensures |data| == Volume(log, k)
  {
    VolumeIsLength(log, k);
  }

  lemma NothingCollected(k: nat)
    ensures IsCollection([], k, 0, Asking, [])
  {
  }

  lemma {:induction false} CollectionEnds(e: Event, k: nat, rounds: nat)
    requires e.request == SegmentRequest(Odd(k)) && !Continues(e.answer, Odd(k)) && rounds > 0
    ensures if CarriesSegment(e.answer, Odd(k))
            then IsCollection([e], k, rounds, Returned(true), Payload(e.answer.frame))
            else IsCollection([e], k, rounds, Returned(false), [])
  {
    hide Specifier, ToggleOf, Payload, SegmentRequest, Bit0;
    assert Odd(k + 0) == Odd(k) && [e][1..] == [];
    assert Accepted([e], k) == (if CarriesSegment(e.answer, Odd(k)) then Payload(e.answer.frame) else []) + [];
  }

  /** More turns change nothing once the upload has returned. */
  lemma {:induction false} CollectSettles(s: Server, toggle: bool, rounds: nat, more: nat)
    requires rounds <= more && Collect(s, toggle, rounds).2.Returned?
    ensures Collect(s, toggle, more) == Collect(s, toggle, rounds)
    decreases rounds
  {
    hide Transfer, SegmentRequest, Specifier, ToggleOf, Payload, Bit0;
    var (s', a) := Transfer(s, SegmentRequest(toggle));
    if CarriesSegment(a, toggle) && !Bit0(a.frame[0]) { CollectSettles(s', !toggle, rounds - 1, more - 1); }
  }

  // ---------------------------------------------------------------- does an upload return?

  /** The reply to the j-th request from now on is not a continuing segment with the right
      toggle bit; the next reply is the `at`-th, to the k-th segment request. */
  predicate StopsAt(answers: nat -> Answer, at: nat, k: nat, j: nat) {
    !Continues(answers(at + j), Odd(k + j))
  }

  predicate StopsWithin(answers: nat -> Answer, at: nat, k: nat, rounds: nat) {
    exists j | 0 <= j < rounds :: StopsAt(answers, at, k, j)
  }

  ghost predicate StopsEver(answers: nat -> Answer, at: nat, k: nat) {
    exists j: nat :: StopsAt(answers, at, k, j)
  }

  lemma {:induction false} CollectReturns(answers: nat -> Answer, at: nat, k: nat, rounds: nat)
    ensures Collect(Arbitrary(answers, at), Odd(k), rounds).2.Returned? <==> StopsWithin(answers, at, k, rounds)
    decreases rounds
  {
    hide Continues, SegmentRequest, Payload;
    if rounds > 0 {
      ContinuesMeans(answers(at), Odd(k));
      StopsNowOrLater(answers, at, k, rounds);
      assert Odd(k + 1) == !Odd(k);
      CollectReturns(answers, at + 1, k + 1, rounds - 1);
    }
  }

  lemma ContinuesMeans(a: Answer, toggle: bool)
    ensures Continues(a, toggle) <==> CarriesSegment(a, toggle) && !Bit0(a.frame[0])
  {
  }

  lemma StopsLater(answers: nat -> Answer, at: nat, k: nat, j: nat)
    ensures StopsAt(answers, at, k, j + 1) <==> StopsAt(answers, at + 1, k + 1, j)
    ensures StopsAt(answers, at, k, 0) <==> !Continues(answers(at), Odd(k))
  {
    hide Continues, Odd;
    assert at + (j + 1) == at + 1 + j && k + (j + 1) == k + 1 + j;
  }

  lemma StopsNowOrLater(answers: nat -> Answer, at: nat, k: nat, rounds: nat)
    requires rounds > 0
    ensures StopsWithin(answers, at, k, rounds) <==>
            !Continues(answers(at), Odd(k)) || StopsWithin(answers, at + 1, k + 1, rounds - 1)
  {
    hide Continues, Odd, StopsAt;
    StopsLater(answers, at, k, 0);
    if StopsWithin(answers, at, k, rounds) {
      var j :| 0 <= j < rounds && StopsAt(answers, at, k, j);
      if j > 0 { StopsLater(answers, at, k, j - 1); }
    }
    if StopsWithin(answers, at + 1, k + 1, rounds - 1) {
      var j :| 0 <= j < rounds - 1 && StopsAt(answers, at + 1, k + 1, j);
      StopsLater(answers, at, k, j);
    }
  }

  /** The upload returns to its caller, however long that takes. */
  ghost predicate UploadReturns(s: Server, size: uint32, index: uint16, subindex: byte) {
    exists rounds: nat :: Uploading(s, size, index, subindex, rounds).2.Returned?
  }

  /** An upload from an arbitrary peer returns if and only if the peer does not open a
      segmented transfer, or some reply after that is not a continuing segment with the right
      toggle bit. */
  lemma UploadReturnsIff(answers: nat -> Answer, at: nat, size: uint32, index: uint16, subindex: byte)
    ensures UploadReturns(Arbitrary(answers, at), size, index, subindex) <==>
            !OpensSegments(answers(at), size, index, subindex) || StopsEver(answers, at + 1, 0)
  {
    hide StopsAt, Collect, Uploading, OpensSegments;
    var s := Arbitrary(answers, at);
    if UploadReturns(s, size, index, subindex) {
      var rounds: nat :| Uploading(s, size, index, subindex, rounds).2.Returned?;
      UploadReturnsWithin(answers, at, size, index, subindex, rounds);
    }
    if StopsEver(answers, at + 1, 0) {
      var first := at + 1;
      var j: nat :| StopsAt(answers, first, 0, j);
      assert StopsWithin(answers, at + 1, 0, j + 1);
      UploadReturnsWithin(answers, at, size, index, subindex, j + 1);
    }
    UploadReturnsWithin(answers, at, size, index, subindex, 0);
  }

  lemma UploadReturnsWithin(answers: nat -> Answer, at: nat, size: uint32, index: uint16, subindex: byte, rounds: nat)
    ensures Uploading(Arbitrary(answers, at), size, index, subindex, rounds).2.Returned? <==>
            !OpensSegments(answers(at), size, index, subindex) || StopsWithin(answers, at + 1, 0, rounds)
  {
    hide Collect, StopsWithin, Specifier, Addresses, ExpeditedBit, Decode32, Unused4, Initiate;
    CollectReturns(answers, at + 1, 0, rounds);
  }

  /** Seven unused bytes, the right toggle bit, never the last one. */
  function Stalling(n: nat): Answer {
    if n == 0 then Reply([0x40, 0, 0, 0, 0, 0, 0, 0])
    else Reply([if Odd(n - 1) then 0x1E else 0x0E, 0, 0, 0, 0, 0, 0, 0])
  }

  lemma StallingContinues(n: nat)
    ensures Continues(Stalling(n + 1), Odd(n)) && Payload(Stalling(n + 1).frame) == []
  {
  }

  lemma {:induction false} StallingCarriesNothing(at: nat, rounds: nat)
    ensures Collect(Arbitrary(Stalling, at + 1), Odd(at), rounds).2 == Asking
    ensures Collect(Arbitrary(Stalling, at + 1), Odd(at), rounds).3 == []
    decreases rounds
  {
    hide Stalling, Payload, SegmentRequest;
    if rounds > 0 {
      StallingContinues(at);
      ContinuesMeans(Stalling(at + 1), Odd(at));
      assert Odd(at + 1) == !Odd(at);
      StallingCarriesNothing(at + 1, rounds - 1);
    }
  }

  /** The peer that keeps an upload asking for ever, without a byte of data. */
  lemma EndlessUpload(size: uint32, rounds: nat)
    ensures var (_, _, verdict, data) := Uploading(Arbitrary(Stalling, 0), size, 0, 0, rounds);
            verdict == Asking && data == []
    ensures !UploadReturns(Arbitrary(Stalling, 0), size, 0, 0)
  {
    hide Collect;
    StallingOpens(size);
    StallingCarriesNothing(0, rounds);
    forall n: nat ensures !Uploading(Arbitrary(Stalling, 0), size, 0, 0, n).2.Returned? {
      StallingCarriesNothing(0, n);
    }
  }

  lemma StallingOpens(size: uint32)
    ensures OpensSegments(Stalling(0), size, 0, 0)
  {
    assert Stalling(0).frame[4..8] == [0, 0, 0, 0];
  }

  // ---------------------------------------------------------------- a conforming drive

  /** The drive once it has stored `data`. */
  function Stored(d: Drive, data: seq<byte>, index: uint16, subindex: byte): Drive {
    d.(od := d.od[(index, subindex) := data], mode := Idle)
  }

  function Halfway(d: Drive, data: seq<byte>, k: nat, index: uint16, subindex: byte): Drive
    requires 7 * k <= |data|
  {
    d.(mode := Receiving(index, subindex, Some(|data|), data[..7 * k], Odd(k)))
  }

  lemma ServeSegment(d: Drive, data: seq<byte>, k: nat, index: uint16, subindex: byte)
    requires 7 * k < |data|
    ensures var (d', reply) := Serve(Halfway(d, data, k, index, subindex), Segment(data, k));
            && d' == (if |data| <= 7 * k + 7 then Stored(d, data, index, subindex)
                      else Halfway(d, data, k + 1, index, subindex))
            && Acknowledges(Reply(reply), k + 1, index, subindex)
  {
    var last := |data| <= 7 * k + 7;
    var payload := data[7 * k..Min(7 * k + 7, |data|)];
    UnpackPack(Odd(k), payload, last);
    assert data[..7 * k] + payload == data[..Min(7 * k + 7, |data|)];
    assert last ==> data[..Min(7 * k + 7, |data|)] == data;
  }

  lemma InitiateFields(command: byte, index: uint16, subindex: byte, tail: seq<byte>)
    requires |tail| == 4
    ensures var f := Initiate(command, index, subindex, tail);
            f[0] == command && Addresses(f, index, subindex) && f[4..8] == tail
  {
    var f := Initiate(command, index, subindex, tail);
    assert f[1..3] == Encode16(index);
  }

  lemma ExpeditedRequest(data: seq<byte>, index: uint16, subindex: byte)
    requires |data| <= 4
    ensures var f := DownloadPlan(data, index, subindex)[0];
            var n := if Bit0(f[0]) then Unused4(f[0]) else 0;
            && Specifier(f[0]) == 1 && ExpeditedBit(f[0]) && Addresses(f, index, subindex)
            && f[4..8 - n] == if data == [] then Zeros(4) else data
  {
    var tail := data + Zeros(4 - |data|);
    var command := 0x23 + 4 * (4 - |data|);
    var f := Initiate(command, index, subindex, tail);
    InitiateFields(command, index, subindex, tail);
    assert Specifier(command) == 1 && ExpeditedBit(command) && Bit0(command);
    assert Unused4(command) == if data == [] then 0 else 4 - |data|;
    assert f[4..4 + |data|] == f[4..8][..|data|] == data;
    assert data == [] ==> tail == Zeros(4);
  }

  lemma Confirmation(index: uint16, subindex: byte)
    ensures Acknowledges(Reply(Initiate(0x60, index, subindex, Zeros(4))), 0, index, subindex)
  {
    InitiateFields(0x60, index, subindex, Zeros(4));
  }

  lemma ServeExpedited(d: Drive, data: seq<byte>, index: uint16, subindex: byte)
    requires |data| <= 4
    ensures var (d', reply) := Serve(d, DownloadPlan(data, index, subindex)[0]);
            && d' == Stored(d, if data == [] then Zeros(4) else data, index, subindex)
            && Acknowledges(Reply(reply), 0, index, subindex)
  {
    hide Initiate, DownloadPlan, Acknowledges, Specifier, ExpeditedBit, Bit0, Unused4;
    ExpeditedRequest(data, index, subindex);
    Confirmation(index, subindex);
  }

  /** The first frame of a segmented download tells the drive how much is to come. */
  lemma ServeInitiate(d: Drive, data: seq<byte>, index: uint16, subindex: byte)
    requires 4 < |data| < 0x1_0000_0000
    ensures var (d', reply) := Serve(d, DownloadPlan(data, index, subindex)[0]);
            && d' == Halfway(d, data, 0, index, subindex)
            && d'.mode == Receiving(index, subindex, Some(|data|), [], false)
            && Acknowledges(Reply(reply), 0, index, subindex)
  {
    InitiateFields(0x21, index, subindex, Encode32(|data|));
    InitiateFields(0x60, index, subindex, Zeros(4));
    Decode32Encode32(|data|);
    assert data[..7 * 0] == [];
  }

  lemma PlanLength(data: seq<byte>, index: uint16, subindex: byte)
    requires |data| < 0x1_0000_0000
    ensures |DownloadPlan(data, index, subindex)| == 1 <==> |data| <= 4
  {
  }

  /** The replies to the next `n` requests are all heard. */
  predicate AllHeard(heard: nat -> bool, at: nat, n: nat)
    decreases n
  {
    n > 0 ==> heard(at) && AllHeard(heard, at + 1, n - 1)
  }

  lemma {:induction false} AllHeardSplits(heard: nat -> bool, at: nat, m: nat, n: nat)
    ensures AllHeard(heard, at, m + n) <==> AllHeard(heard, at, m) && AllHeard(heard, at + m, n)
    decreases m
  {
    if m > 0 { AllHeardSplits(heard, at + 1, m - 1, n); }
  }

  /** The drive once it has got frames 0 to `j` of a download. */
  function AfterFrame(d: Drive, data: seq<byte>, j: nat, index: uint16, subindex: byte): Drive {
    if |data| <= 4 || 7 * j >= |data| then Stored(d, if data == [] then Zeros(4) else data, index, subindex)
    else Halfway(d, data, j, index, subindex)
  }

  /** A download to a conforming drive from frame `k` on: it goes on to the first frame whose
      reply is not heard, the drive has got all frames up to that one, and true is returned if
      there is none. */
  ghost predicate Downloads(d: Drive, heard: nat -> bool, at: nat, data: seq<byte>, k: nat, index: uint16,
                            subindex: byte, r: (Server, seq<Event>, bool))
    requires |data| < 0x1_0000_0000
  {
    var n := |DownloadPlan(data, index, subindex)|;
    var sent := |r.1|;
    && 0 < sent <= n - k
    && r.0 == Conforming(AfterFrame(d, data, k + sent - 1, index, subindex), heard, at + sent)
    && AllHeard(heard, at, sent - 1)
    && (if r.2 then heard(at + sent - 1) && sent == n - k else !heard(at + sent - 1))
  }

  lemma DownloadsFurther(d: Drive, heard: nat -> bool, at: nat, data: seq<byte>, k: nat, index: uint16, subindex: byte,
                         e: Event, r: (Server, seq<Event>, bool))
    requires |data| < 0x1_0000_0000 && heard(at)
    requires Downloads(d, heard, at + 1, data, k + 1, index, subindex, r)
    ensures Downloads(d, heard, at, data, k, index, subindex, (r.0, [e] + r.1, r.2))
  {
    hide AfterFrame, DownloadPlan;
  }

  /** One frame of a download. */
  predicate Takes(before: Drive, d: Drive, data: seq<byte>, k: nat, index: uint16, subindex: byte)
    requires |data| < 0x1_0000_0000 && k < |DownloadPlan(data, index, subindex)|
  {
    var (d', reply) := Serve(before, DownloadPlan(data, index, subindex)[k]);
    d' == AfterFrame(d, data, k, index, subindex) && Acknowledges(Reply(reply), k, index, subindex)
  }

  lemma FrameIsTaken(before: Drive, d: Drive, heard: nat -> bool, at: nat, data: seq<byte>, k: nat,
                     index: uint16, subindex: byte)
    requires |data| < 0x1_0000_0000
    requires var n := |DownloadPlan(data, index, subindex)|;
             && k < n && Takes(before, d, data, k, index, subindex)
             && (heard(at) && k + 1 < n ==>
                   Downloads(d, heard, at + 1, data, k + 1, index, subindex,
                             Exchange(Conforming(AfterFrame(d, data, k, index, subindex), heard, at + 1),
                                      DownloadPlan(data, index, subindex), k + 1, index, subindex)))
    ensures Downloads(d, heard, at, data, k, index, subindex,
                      Exchange(Conforming(before, heard, at), DownloadPlan(data, index, subindex), k, index, subindex))
  {
    hide Serve, AfterFrame, DownloadPlan;
    var plan := DownloadPlan(data, index, subindex);
    var (s', a) := Transfer(Conforming(before, heard, at), plan[k]);
    if heard(at) && k + 1 < |plan| {
      DownloadsFurther(d, heard, at, data, k, index, subindex, Event(plan[k], a),
                       Exchange(s', plan, k + 1, index, subindex));
    } else if heard(at) {
      assert [Event(plan[k], a)] + [] == [Event(plan[k], a)];
    }
  }

  lemma {:induction false} SegmentsAreStored(d: Drive, heard: nat -> bool, at: nat, data: seq<byte>, k: nat,
                                             index: uint16, subindex: byte)
    requires 4 < |data| < 0x1_0000_0000 && 7 * k < |data|
    ensures Downloads(d, heard, at, data, k + 1, index, subindex,
                      Exchange(Conforming(Halfway(d, data, k, index, subindex), heard, at),
                               DownloadPlan(data, index, subindex), k + 1, index, subindex))
    decreases |data| - 7 * k
  {
    hide Exchange, Serve, DownloadPlan, Acknowledges, Downloads, Stored;
    PlanAt(data, index, subindex, k);
    ServeSegment(d, data, k, index, subindex);
    if 7 * k + 7 < |data| { SegmentsAreStored(d, heard, at + 1, data, k + 1, index, subindex); }
    FrameIsTaken(Halfway(d, data, k, index, subindex), d, heard, at, data, k + 1, index, subindex);
  }

  /** A download to a conforming drive succeeds if and only if every reply to its frames is
      heard. In any case the drive has got all frames up to the first whose reply is not: it has
      stored what was given exactly when this is the last one or there is none, and nothing
      else before. Only the empty string is stored as something else (four zero bytes). */
  lemma DownloadIsStored(d: Drive, heard: nat -> bool, at: nat, data: seq<byte>, index: uint16, subindex: byte)
    requires |data| < 0x1_0000_0000
    ensures var plan := DownloadPlan(data, index, subindex);
            var n, (s, log, ok) := |plan|, Exchange(Conforming(d, heard, at), plan, 0, index, subindex);
            && 0 < |log| <= n
            && (ok <==> AllHeard(heard, at, n))
            && s.Conforming? && s.heard == heard && s.at == at + |log|
            && (|log| == n <==> AllHeard(heard, at, n - 1))
            && (if |log| == n then s.drive == Stored(d, if data == [] then Zeros(4) else data, index, subindex)
                else s.drive.od == d.od)
  {
    hide Exchange, Serve, DownloadPlan, Acknowledges, Initiate, Stored;
    var plan := DownloadPlan(data, index, subindex);
    PlanLength(data, index, subindex);
    if |data| <= 4 {
      ServeExpedited(d, data, index, subindex);
    } else {
      ServeInitiate(d, data, index, subindex);
      SegmentsAreStored(d, heard, at + 1, data, 0, index, subindex);
    }
    FrameIsTaken(d, d, heard, at, data, 0, index, subindex);
    var r := Exchange(Conforming(d, heard, at), plan, 0, index, subindex);
    LastFrame(data, |r.1| - 1, index, subindex);
    HeardUpTo(heard, at, |r.1|, |plan|);
    HeardUpTo(heard, at, |r.1|, |plan| - 1);
  }

  /** A download that returns false although the drive has stored the data: the confirmation
      comes before the client registers to await it. */
  lemma ConfirmationIsMissed(d: Drive, data: seq<byte>, index: uint16, subindex: byte)
    requires 1 <= |data| <= 4
    ensures var plan := DownloadPlan(data, index, subindex);
            var (s, log, ok) := Exchange(Conforming(d, n => n > 0, 0), plan, 0, index, subindex);
            !ok && s.Conforming? && s.drive == Stored(d, data, index, subindex)
  {
    hide Exchange, Stored, DownloadPlan;
    PlanLength(data, index, subindex);
    DownloadIsStored(d, n => n > 0, 0, data, index, subindex);
  }

  lemma LastFrame(data: seq<byte>, j: nat, index: uint16, subindex: byte)
    requires |data| < 0x1_0000_0000 && j < |DownloadPlan(data, index, subindex)|
    ensures j + 1 == |DownloadPlan(data, index, subindex)| <==> |data| <= 4 || 7 * j >= |data|
  {
  }

  /** What the first unheard reply decides. */
  lemma HeardUpTo(heard: nat -> bool, at: nat, sent: nat, n: nat)
    requires 0 < sent && AllHeard(heard, at, sent - 1)
    ensures sent <= n && !heard(at + sent - 1) ==> !AllHeard(heard, at, n)
    ensures sent == n + 1 ==> AllHeard(heard, at, n)
    ensures sent == n && heard(at + sent - 1) ==> AllHeard(heard, at, n)
  {
    if sent <= n { AllHeardSplits(heard, at, sent - 1, n - (sent - 1)); }
  }

  /** How many segments a drive sends for `rest` bytes. */
  function SegmentsOf(plan: seq<nat>, rest: nat): (n: nat)
    ensures n <= rest && (rest > 0 ==> n > 0)
    decreases rest
  {
    if rest == 0 then 0
    else 1 + SegmentsOf(RestOfPlan(plan), rest - SegmentSize(plan, rest))
  }

  /** How many of them are received before the first reply that is not heard. */
  function Delivered(heard: nat -> bool, at: nat, plan: seq<nat>, rest: nat): (n: nat)
    ensures n <= rest
    decreases rest
  {
    if rest == 0 || !heard(at) then 0
    else
      var n := SegmentSize(plan, rest);
      n + Delivered(heard, at + 1, RestOfPlan(plan), rest - n)
  }

  lemma {:induction false} DeliveredAll(heard: nat -> bool, at: nat, plan: seq<nat>, rest: nat)
    ensures Delivered(heard, at, plan, rest) == rest <==> AllHeard(heard, at, SegmentsOf(plan, rest))
    decreases rest
  {
    if rest > 0 && heard(at) {
      DeliveredAll(heard, at + 1, RestOfPlan(plan), rest - SegmentSize(plan, rest));
    }
  }

  /** A conforming drive hands over all it has left, in whatever segments it chooses, up to the
      first reply that is not heard. */
  ghost predicate HandsOver(d: Drive, heard: nat -> bool, at: nat, r: (Server, seq<Event>, Verdict, seq<byte>))
    requires d.mode.Sending?
  {
    var n := |d.mode.rest|;
    && r.2 == Returned(AllHeard(heard, at, SegmentsOf(d.mode.plan, n)))
    && r.3 == d.mode.rest[..Delivered(heard, at, d.mode.plan, n)]
    && r.0.Conforming? && r.0.heard == heard && r.0.at == at + |r.1| && r.0.drive.od == d.od
    && (r.2.ok ==> r.0.drive == d.(mode := Idle) && |r.1| == SegmentsOf(d.mode.plan, n))
  }

  function RestOfPlan(plan: seq<nat>): seq<nat> { if plan == [] then [] else plan[1..] }

  lemma HandsOverMore(d: Drive, heard: nat -> bool, at: nat, e: Event, r: (Server, seq<Event>, Verdict, seq<byte>))
    requires d.mode.Sending? && d.mode.rest != [] && heard(at)
    requires var n := SegmentSize(d.mode.plan, |d.mode.rest|);
             var mode := Sending(d.mode.rest[n..], !d.mode.next, RestOfPlan(d.mode.plan));
             n < |d.mode.rest| && HandsOver(d.(mode := mode), heard, at + 1, r)
    ensures HandsOver(d, heard, at, (r.0, [e] + r.1, r.2, d.mode.rest[..SegmentSize(d.mode.plan, |d.mode.rest|)] + r.3))
  {
    var n := SegmentSize(d.mode.plan, |d.mode.rest|);
    var m := Delivered(heard, at + 1, RestOfPlan(d.mode.plan), |d.mode.rest| - n);
    assert d.mode.rest[..n] + d.mode.rest[n..][..m] == d.mode.rest[..n + m];
  }

  lemma HandsOverLast(d: Drive, heard: nat -> bool, at: nat, e: Event)
    requires d.mode.Sending? && d.mode.rest != [] && heard(at)
    requires SegmentSize(d.mode.plan, |d.mode.rest|) == |d.mode.rest|
    ensures HandsOver(d, heard, at, (Conforming(d.(mode := Idle), heard, at + 1), [e], Returned(true), d.mode.rest))
  {
    var n := |d.mode.rest|;
    assert d.mode.rest[..n] == d.mode.rest && SegmentsOf(d.mode.plan, n) == 1;
    assert Delivered(heard, at, d.mode.plan, n) == n && AllHeard(heard, at, 1);
  }

  lemma HandsOverNothing(d: Drive, d': Drive, heard: nat -> bool, at: nat, e: Event)
    requires d.mode.Sending? && d.mode.rest != [] && !heard(at) && d'.od == d.od
    ensures HandsOver(d, heard, at, (Conforming(d', heard, at + 1), [e], Returned(false), []))
  {
  }

  lemma {:induction false} CollectFromDrive(d: Drive, heard: nat -> bool, at: nat, rounds: nat)
    requires d.mode.Sending? && d.mode.rest != [] && rounds >= |d.mode.rest|
    ensures HandsOver(d, heard, at, Collect(Conforming(d, heard, at), d.mode.next, rounds))
    decreases rounds
  {
    hide HandsOver, Serve, Payload, Specifier, ToggleOf, Bit0, Pack, SegmentRequest;
    var n := SegmentSize(d.mode.plan, |d.mode.rest|);
    var request := SegmentRequest(d.mode.next);
    var (d', reply) := Serve(d, request);
    ServeSegmentRequest(d);
    if !heard(at) {
      HandsOverNothing(d, d', heard, at, Event(request, NoReply));
    } else if n < |d.mode.rest| {
      CollectFromDrive(d', heard, at + 1, rounds - 1);
      HandsOverMore(d, heard, at, Event(request, Reply(reply)),
                    Collect(Conforming(d', heard, at + 1), !d.mode.next, rounds - 1));
    } else {
      HandsOverLast(d, heard, at, Event(request, Reply(reply)));
      assert d.mode.rest[..n] == d.mode.rest;
    }
  }

  lemma ServeSegmentRequest(d: Drive)
    requires d.mode.Sending? && d.mode.rest != []
    ensures var n := SegmentSize(d.mode.plan, |d.mode.rest|);
            var (d', reply) := Serve(d, SegmentRequest(d.mode.next));
            && d' == d.(mode := if n == |d.mode.rest| then Idle
                                else Sending(d.mode.rest[n..], !d.mode.next, RestOfPlan(d.mode.plan)))
            && CarriesSegment(Reply(reply), d.mode.next) && (Bit0(reply[0]) <==> n == |d.mode.rest|)
            && Payload(reply) == d.mode.rest[..n]
  {
    var f := SegmentRequest(d.mode.next);
    assert Specifier(f[0]) == 3 && ToggleOf(f[0]) == d.mode.next;
    var n := SegmentSize(d.mode.plan, |d.mode.rest|);
    UnpackPack(d.mode.next, d.mode.rest[..n], d.mode.rest[n..] == []);
  }

  lemma {:induction false} ServeUpload(d: Drive, index: uint16, subindex: byte)
    requires (index, subindex) in d.od && |d.od[(index, subindex)]| < 0x1_0000_0000
    ensures var stored := d.od[(index, subindex)];
            var (d', reply) := Serve(d, Initiate(0x40, index, subindex, Zeros(4)));
            && Specifier(reply[0]) == 2 && Addresses(reply, index, subindex) && reply[0] != ABORT
            && if d.style.expedite && |stored| <= 4 then
                 && d' == d.(mode := Idle) && ExpeditedBit(reply[0])
                 && reply[4..4 + |stored|] == stored
                 && (Bit0(reply[0]) && stored != [] ==> Unused4(reply[0]) == 4 - |stored|)
               else
                 && d' == d.(mode := Sending(stored, false, d.style.plan)) && !ExpeditedBit(reply[0])
                 && Decode32(reply[4..8]) <= |stored|
  {
    hide Specifier, Addresses, ExpeditedBit, Unused4, Bit0, Initiate, Decode32, Encode32;
    ServeUploadRequest(d, index, subindex);
    if d.style.expedite && |d.od[(index, subindex)]| <= 4 {
      ExpeditedReply(d.style.sized, d.od[(index, subindex)], index, subindex);
    } else {
      SegmentedReply(d.style.sized, d.od[(index, subindex)], index, subindex);
    }
  }

  /** What the drive answers to an upload request. */
  function UploadReply(style: Style, stored: seq<byte>, index: uint16, subindex: byte): Frame
    requires |stored| < 0x1_0000_0000
  {
    if style.expedite && |stored| <= 4 then
      Initiate(if style.sized then 0x43 + 4 * (4 - |stored|) else 0x42, index, subindex, stored + Zeros(4 - |stored|))
    else
      Initiate(if style.sized then 0x41 else 0x40, index, subindex, Encode32(if style.sized then |stored| else 0))
  }

  lemma ServeUploadRequest(d: Drive, index: uint16, subindex: byte)
    requires (index, subindex) in d.od && |d.od[(index, subindex)]| < 0x1_0000_0000
    ensures var stored := d.od[(index, subindex)];
            Serve(d, Initiate(0x40, index, subindex, Zeros(4))) ==
            (d.(mode := if d.style.expedite && |stored| <= 4 then Idle else Sending(stored, false, d.style.plan)),
             UploadReply(d.style, stored, index, subindex))
  {
    InitiateFields(0x40, index, subindex, Zeros(4));
    assert Specifier(0x40) == 2;
    hide Initiate, Encode32, Specifier;
  }

  lemma ExpeditedReply(sized: bool, stored: seq<byte>, index: uint16, subindex: byte)
    requires |stored| <= 4
    ensures var reply := UploadReply(Style(true, sized, []), stored, index, subindex);
            && Specifier(reply[0]) == 2 && Addresses(reply, index, subindex) && reply[0] != ABORT
            && ExpeditedBit(reply[0]) && reply[4..4 + |stored|] == stored
            && (Bit0(reply[0]) && stored != [] ==> Unused4(reply[0]) == 4 - |stored|)
  {
    var command := if sized then 0x43 + 4 * (4 - |stored|) else 0x42;
    var tail := stored + Zeros(4 - |stored|);
    InitiateFields(command, index, subindex, tail);
    var reply := Initiate(command, index, subindex, tail);
    assert reply[4..4 + |stored|] == reply[4..8][..|stored|];
    hide Initiate, Addresses;
  }

  lemma SegmentedReply(sized: bool, stored: seq<byte>, index: uint16, subindex: byte)
    requires |stored| < 0x1_0000_0000
    ensures var len := if sized then |stored| else 0;
            var reply := Initiate(if sized then 0x41 else 0x40, index, subindex, Encode32(len));
            && Specifier(reply[0]) == 2 && Addresses(reply, index, subindex) && reply[0] != ABORT
            && !ExpeditedBit(reply[0]) && Decode32(reply[4..8]) == len
  {
    hide Initiate, Addresses, Encode32, Decode32;
    var len := if sized then |stored| else 0;
    InitiateFields(if sized then 0x41 else 0x40, index, subindex, Encode32(len));
    Decode32Encode32(len);
  }

  /** How many replies an upload of `stored` needs. */
  function UploadFrames(style: Style, stored: seq<byte>): nat {
    1 + if style.expedite && |stored| <= 4 then 0 else SegmentsOf(style.plan, |stored|)
  }

  /** An upload of an entry that holds exactly `size` bytes returns them, if and only if every
      reply is heard; otherwise it returns false, with what came before the first that is
      not. */
  lemma {:induction false} UploadIsRead(d: Drive, heard: nat -> bool, at: nat, index: uint16, subindex: byte,
                                        rounds: nat)
    requires (index, subindex) in d.od && 1 <= |d.od[(index, subindex)]| < 0x1_0000_0000
    requires rounds >= |d.od[(index, subindex)]|
    ensures var stored := d.od[(index, subindex)];
            var n := UploadFrames(d.style, stored);
            var (s, log, verdict, data) := Uploading(Conforming(d, heard, at), |stored|, index, subindex, rounds);
            && verdict == Returned(AllHeard(heard, at, n)) && data <= stored
            && s.Conforming? && s.heard == heard && s.at == at + |log| && s.drive.od == d.od
            && (verdict.ok ==> data == stored && s == Conforming(d.(mode := Idle), heard, at + n))
  {
    hide Serve, Collect, Initiate, Specifier, Addresses, ExpeditedBit, Bit0, Unused4, Decode32;
    ServeUpload(d, index, subindex);
    var stored := d.od[(index, subindex)];
    if heard(at) && !(d.style.expedite && |stored| <= 4) {
      CollectFromDrive(d.(mode := Sending(stored, false, d.style.plan)), heard, at + 1, rounds);
      DeliveredAll(heard, at + 1, d.style.plan, |stored|);
      assert stored[..|stored|] == stored;
    }
  }

  /** What an upload into room for `size` bytes makes of an entry that a conforming drive sends in
      one frame, whose reply is heard: with its size indicated, the room must be for exactly
      that many bytes (for four if there are none, as the frame cannot say so); without, the room
      is filled from the front of the frame. */
  lemma {:induction false} ExpeditedIntoRoom(d: Drive, heard: nat -> bool, at: nat, size: uint32,
                                             index: uint16, subindex: byte, rounds: nat)
    requires (index, subindex) in d.od && d.style.expedite && |d.od[(index, subindex)]| <= 4 && heard(at)
    ensures var stored := d.od[(index, subindex)];
            var padded := stored + Zeros(4 - |stored|);
            var (s, log, verdict, data) := Uploading(Conforming(d, heard, at), size, index, subindex, rounds);
            && s == Conforming(d.(mode := Idle), heard, at + 1)
            && (if d.style.sized then
                  && verdict == Returned(size == if stored == [] then 4 else |stored|)
                  && data == if !verdict.ok then [] else if stored == [] then padded else stored
                else
                  verdict == Returned(true) && data == padded[..Min(size, 4)])
  {
    hide Serve, Collect, Initiate, Specifier, Addresses;
    var stored := d.od[(index, subindex)];
    ServeUploadRequest(d, index, subindex);
    ExpeditedReply(d.style.sized, stored, index, subindex);
    ExpeditedSize(d.style.sized, stored, index, subindex);
    var reply := UploadReply(d.style, stored, index, subindex);
    FrontOfTail(reply, Min(size, 4));
  }

  lemma FrontOfTail(f: Frame, n: nat)
    requires n <= 4
    ensures f[4..4 + n] == f[4..8][..n]
  {
  }

  lemma ExpeditedSize(sized: bool, stored: seq<byte>, index: uint16, subindex: byte)
    requires |stored| <= 4
    ensures var reply := UploadReply(Style(true, sized, []), stored, index, subindex);
            && reply[4..8] == stored + Zeros(4 - |stored|) && (Bit0(reply[0]) <==> sized)
            && (sized ==> Unused4(reply[0]) == if stored == [] then 0 else 4 - |stored|)
  {
    var command := if sized then 0x43 + 4 * (4 - |stored|) else 0x42;
    InitiateFields(command, index, subindex, stored + Zeros(4 - |stored|));
  }

  /** What it makes of an entry sent in segments: an announced size that does not fit is refused;
      else all bytes come, and true is returned if and only if every reply is heard. */
  lemma {:induction false} SegmentsIntoRoom(d: Drive, heard: nat -> bool, at: nat, size: uint32,
                                            index: uint16, subindex: byte, rounds: nat)
    requires (index, subindex) in d.od && 1 <= |d.od[(index, subindex)]| < 0x1_0000_0000
    requires !(d.style.expedite && |d.od[(index, subindex)]| <= 4) && rounds >= |d.od[(index, subindex)]|
    ensures var stored := d.od[(index, subindex)];
            var segments := SegmentsOf(d.style.plan, |stored|);
            var (s, log, verdict, data) := Uploading(Conforming(d, heard, at), size, index, subindex, rounds);
            if !heard(at) || (d.style.sized && size < |stored|) then verdict == Returned(false) && data == []
            else verdict == Returned(AllHeard(heard, at + 1, segments))
                 && data == stored[..Delivered(heard, at + 1, d.style.plan, |stored|)]
                 && (verdict.ok ==> data == stored)
  {
    hide Serve, Collect, Initiate, Specifier, Addresses, ExpeditedBit, Bit0, Unused4, Decode32;
    ServeUpload(d, index, subindex);
    AnnouncedLength(d, index, subindex);
    var stored := d.od[(index, subindex)];
    if heard(at) {
      CollectFromDrive(d.(mode := Sending(stored, false, d.style.plan)), heard, at + 1, rounds);
      DeliveredAll(heard, at + 1, d.style.plan, |stored|);
      assert stored[..|stored|] == stored;
    }
  }

  /** Uploads from a conforming drive stay within the room of the caller if and only if the
      drive indicates the size, answers in one frame, or delivers no more than that; when every
      reply is heard, it delivers all it stores. */
  lemma {:induction false} UploadStaysInRoom(d: Drive, heard: nat -> bool, at: nat, size: uint32,
                                             index: uint16, subindex: byte, rounds: nat)
    requires (index, subindex) in d.od && |d.od[(index, subindex)]| < 0x1_0000_0000
    requires rounds >= |d.od[(index, subindex)]|
    ensures var stored := d.od[(index, subindex)];
            var delivered := if heard(at) then Delivered(heard, at + 1, d.style.plan, |stored|) else 0;
            var (s, log, verdict, data) := Uploading(Conforming(d, heard, at), size, index, subindex, rounds);
            && (|data| <= size <==> d.style.sized || (d.style.expedite && |stored| <= 4) || delivered <= size)
            && (AllHeard(heard, at, 1 + SegmentsOf(d.style.plan, |stored|)) ==> delivered == |stored|)
  {
    hide Serve, Collect, Initiate, Specifier, Addresses, ExpeditedBit, Bit0, Unused4, Decode32;
    ServeUpload(d, index, subindex);
    var stored := d.od[(index, subindex)];
    DeliveredAll(heard, at + 1, d.style.plan, |stored|);
    if heard(at) && !(d.style.expedite && |stored| <= 4) {
      AnnouncedLength(d, index, subindex);
      var d' := d.(mode := Sending(stored, false, d.style.plan));
      if stored == [] {
        NothingToCollect(d', heard, at + 1, rounds);
      } else {
        CollectFromDrive(d', heard, at + 1, rounds);
      }
    }
  }

  lemma AnnouncedLength(d: Drive, index: uint16, subindex: byte)
    requires (index, subindex) in d.od && |d.od[(index, subindex)]| < 0x1_0000_0000
    requires !(d.style.expedite && |d.od[(index, subindex)]| <= 4)
    ensures var reply := Serve(d, Initiate(0x40, index, subindex, Zeros(4))).1;
            Decode32(reply[4..8]) == if d.style.sized then |d.od[(index, subindex)]| else 0
  {
    hide Initiate, Specifier, Addresses, ExpeditedBit, Bit0, Unused4, Decode32, Encode32, Serve;
    ServeUploadRequest(d, index, subindex);
    SegmentedReply(d.style.sized, d.od[(index, subindex)], index, subindex);
  }

  lemma NothingToCollect(d: Drive, heard: nat -> bool, at: nat, rounds: nat)
    requires d.mode.Sending? && d.mode.rest == [] && !d.mode.next
    ensures Collect(Conforming(d, heard, at), false, rounds).3 == []
  {
    var f := SegmentRequest(false);
    assert Specifier(f[0]) == 3;
    assert Serve(d, f) == Aborted(d, f);
  }

  /** Round trip: what is downloaded is what is uploaded, for every non-empty string and
      every conforming drive, in any mode to begin with and whatever the style in which
      it serves uploads, if and only if the replies to all frames are heard. No other entry of
      its dictionary changes. */
  lemma {:induction false} RoundTrip(d: Drive, heard: nat -> bool, at: nat, data: seq<byte>, index: uint16,
                                     subindex: byte, rounds: nat)
    requires 1 <= |data| < 0x1_0000_0000 && rounds >= |data|
    ensures var plan := DownloadPlan(data, index, subindex);
            var down, up := |plan|, UploadFrames(d.style, data);
            var (s, log, ok) := Exchange(Conforming(d, heard, at), plan, 0, index, subindex);
            var (s', log', verdict, out) := Uploading(s, |data|, index, subindex, rounds);
            && (ok && verdict == Returned(true) <==> AllHeard(heard, at, down + up))
            && (ok && verdict == Returned(true) ==>
                  out == data && s' == Conforming(Stored(d, data, index, subindex), heard, at + down + up))
  {
    hide Exchange, Uploading, DownloadPlan, AllHeard, UploadFrames;
    DownloadIsStored(d, heard, at, data, index, subindex);
    var down, up := |DownloadPlan(data, index, subindex)|, UploadFrames(d.style, data);
    AllHeardSplits(heard, at, down, up);
    if AllHeard(heard, at, down) {
      AllHeardShorter(heard, at, down);
      UploadIsRead(Stored(d, data, index, subindex), heard, at + down, index, subindex, rounds);
    }
  }

  /** Whether the drive lets a string of this length be read back: if it comes in one frame, its
      size must not be indicated, which would have to be that of the whole room; if it comes in
      segments, it must fit where its size is announced. */
  predicate Readable(style: Style, length: nat) {
    if style.expedite && length <= 4 then !style.sized else style.sized ==> length <= MAX_LEN
  }

  /** A string written and read back through the overloads for strings: both calls succeed if and
      only if all replies are heard and the drive lets strings of the length be read; the text
      is then the same if and only if it contains no terminator. It stays within the room unless
      it is longer and not announced. */
  lemma {:induction false} StringRoundTrip(d: Drive, heard: nat -> bool, at: nat, s: seq<byte>, index: uint16,
                                           subindex: byte, rounds: nat)
    requires 1 <= |s| < 0x1_0000_0000 && rounds >= |s|
    ensures var plan := DownloadPlan(s, index, subindex);
            var down, up := |plan|, UploadFrames(d.style, s);
            var (server, log, ok) := Exchange(Conforming(d, heard, at), plan, 0, index, subindex);
            var (server', log', verdict, data) := Uploading(server, MAX_LEN, index, subindex, rounds);
            && (ok && verdict == Returned(true) <==> AllHeard(heard, at, down + up) && Readable(d.style, |s|))
            && (ok && verdict == Returned(true) ==> (Text(data) == s <==> 0 !in s) && |data| >= |s|)
            && (ok && |data| > MAX_LEN ==> |s| > MAX_LEN && !d.style.sized)
  {
    hide Exchange, Uploading, DownloadPlan, Text;
    DownloadIsStored(d, heard, at, s, index, subindex);
    var down, up := |DownloadPlan(s, index, subindex)|, UploadFrames(d.style, s);
    AllHeardSplits(heard, at, down, up);
    if AllHeard(heard, at, down) {
      AllHeardShorter(heard, at, down);
      StringIsRead(Stored(d, s, index, subindex), heard, at + down, index, subindex, rounds);
    }
  }

  /** A drive that stores the one character it was sent, and does not let it be read back. */
  lemma ShortStringIsNotRead(index: uint16, subindex: byte)
    ensures var d, heard := Drive(map[], Idle, Style(true, true, [])), (n: nat) => true;
            var plan := DownloadPlan([0x41], index, subindex);
            var (server, log, ok) := Exchange(Conforming(d, heard, 0), plan, 0, index, subindex);
            var (server', log', verdict, data) := Uploading(server, MAX_LEN, index, subindex, 1);
            && ok && server.Conforming? && server.drive.od == map[(index, subindex) := [0x41]]
            && verdict == Returned(false)
  {
    hide Exchange, Uploading, Transfer, Serve;
    var d, heard := Drive(map[], Idle, Style(true, true, [])), (n: nat) => true;
    DownloadIsStored(d, heard, 0, [0x41], index, subindex);
    ExpeditedIntoRoom(Stored(d, [0x41], index, subindex), heard, 1, MAX_LEN, index, subindex, 1);
  }

  lemma {:induction false} StringIsRead(d: Drive, heard: nat -> bool, at: nat, index: uint16, subindex: byte,
                                        rounds: nat)
    requires (index, subindex) in d.od && 1 <= |d.od[(index, subindex)]| < 0x1_0000_0000
    requires rounds >= |d.od[(index, subindex)]|
    ensures var s := d.od[(index, subindex)];
            var (server, log, verdict, data) := Uploading(Conforming(d, heard, at), MAX_LEN, index, subindex, rounds);
            && (verdict == Returned(true) <==>
                  AllHeard(heard, at, UploadFrames(d.style, s)) && Readable(d.style, |s|))
            && (verdict == Returned(true) ==> (Text(data) == s <==> 0 !in s) && |data| >= |s|)
            && (|data| > MAX_LEN ==> |s| > MAX_LEN && !d.style.sized)
  {
    hide Uploading, Text, SegmentsOf, Delivered;
    var s := d.od[(index, subindex)];
    if !heard(at) {
      Unheard(d, heard, at, MAX_LEN, index, subindex, rounds);
    } else if d.style.expedite && |s| <= 4 {
      ExpeditedIntoRoom(d, heard, at, MAX_LEN, index, subindex, rounds);
      TextOf(s, 4 - |s|);
      assert (s + Zeros(4 - |s|))[..4] == s + Zeros(4 - |s|);
    } else {
      SegmentsIntoRoom(d, heard, at, MAX_LEN, index, subindex, rounds);
      TextOf(s, 0);
      assert s + Zeros(0) == s;
    }
  }

  lemma Unheard(d: Drive, heard: nat -> bool, at: nat, size: uint32, index: uint16, subindex: byte, rounds: nat)
    requires !heard(at)
    ensures var (_, _, verdict, data) := Uploading(Conforming(d, heard, at), size, index, subindex, rounds);
            verdict == Returned(false) && data == []
  {
    hide Serve;
  }

  lemma AllHeardShorter(heard: nat -> bool, at: nat, n: nat)
    requires n > 0 && AllHeard(heard, at, n)
    ensures AllHeard(heard, at, n - 1)
  {
    AllHeardSplits(heard, at, n - 1, 1);
  }

  /** The same, through the client's own methods; there are no more segments than bytes. */
  method WriteThenRead(client: Client, data: seq<byte>, index: uint16, subindex: byte)
    returns (ok: bool, out: seq<byte>)
    requires 1 <= |data| < 0x1_0000_0000 && client.server.Conforming?
    modifies client
    ensures var s := old(client.server);
            var frames := |DownloadPlan(data, index, subindex)| + UploadFrames(s.drive.style, data);
            && (ok <==> AllHeard(s.heard, s.at, frames))
            && (ok ==>
                  && out == data
                  && client.server == Conforming(Stored(s.drive, data, index, subindex), s.heard, s.at + frames))
  {
    hide Exchange, Uploading, DownloadPlan, Stored, AllHeard, UploadFrames;
    ghost var s := client.server;
    RoundTrip(s.drive, s.heard, s.at, data, index, subindex, |data|);
    ok := client.DownloadInternal(data, index, subindex);
    if ok {
      var verdict;
      verdict, out := client.UploadInternal(|data|, index, subindex, |data|);
      ok := verdict == Returned(true);
    } else {
      out := [];
    }
  }

  /** The overload for strings; the caller's string is kept if it fails. */
  method UploadString(client: Client, before: seq<byte>, index: uint16, subindex: byte, rounds: nat)
    returns (verdict: Verdict, s: seq<byte>)
    modifies client
    ensures var (server, log, done, data) := Uploading(old(client.server), MAX_LEN, index, subindex, rounds);
            && client.server == server && client.log == old(client.log) + log && verdict == done
            && s == if verdict == Returned(true) then Text(data) else before
  {
    hide Uploading, Text;
    var data;
    ghost var r := Uploading(client.server, MAX_LEN, index, subindex, rounds);
    assert [] + r.3 == r.3;
    verdict, data := client.UploadInternal(MAX_LEN, index, subindex, rounds);
    s := if verdict == Returned(true) then Text(data) else before;
  }
}
