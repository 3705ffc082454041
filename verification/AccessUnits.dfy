/** internal/api/handlers_webrtc.go, readAndSendNALs: H.264 NAL units become samples with start codes, and
    the parameter sets are sent again where a decoder may need them. */
module AnnexB {
  import opened Streams

  const START_CODE: Bytes := [0, 0, 0, 1]

  /** A unit that obeys section 7.4.1 of ITU-T H.264: no three bytes in it look like a start code or its
      beginning, and it does not end in a zero byte. */
  ghost predicate WellFormedUnit(u: Bytes) {
    && u != [] && u[|u| - 1] != 0
    && forall i :: 0 <= i <= |u| - 3 ==> !(u[i] == 0 && u[i + 1] == 0 && u[i + 2] <= 2)
  }

  /** The units of a sample, each behind a start code. */
  function Framed(units: seq<Bytes>): Bytes {
    if units == [] then [] else START_CODE + units[0] + Framed(units[1..])
  }

  // ---- The byte stream parser of sections B.1.1 and B.2 ----

  predicate ThreeBytesAt(s: Bytes, i: nat, last: Byte) {
    i + 3 <= |s| && s[i] == 0 && s[i + 1] == 0 && s[i + 2] == last
  }

  /** Where the next start code prefix begins, at i or later; the end of the stream if there is none. */
  function NextPrefix(s: Bytes, i: nat): (k: nat)
    requires i <= |s|
    ensures i <= k <= |s| && (k < |s| ==> ThreeBytesAt(s, k, 1))
    decreases |s| - i
  {
    if i == |s| || ThreeBytesAt(s, i, 1) then i else NextPrefix(s, i + 1)
  }

  /** Where the unit that starts at i ends: before three zero bytes or a start code prefix, or at the end. */
  function UnitEnd(s: Bytes, i: nat): (k: nat)
    requires i <= |s|
    ensures i <= k <= |s|
    decreases |s| - i
  {
    if i == |s| || ThreeBytesAt(s, i, 0) || ThreeBytesAt(s, i, 1) then i else UnitEnd(s, i + 1)
  }

  function Split(s: Bytes): seq<Bytes>
    decreases |s|
  {
    var p := NextPrefix(s, 0);
    if p == |s| then [] else
      var e := UnitEnd(s, p + 3);
      [s[p + 3..e]] + Split(s[e..])
  }

  lemma {:induction false} UnitEndsBeforeStartCode(u: Bytes, rest: Bytes, i: nat)
    requires WellFormedUnit(u) && i <= |u|
    requires rest == [] || (|rest| >= 4 && rest[..4] == START_CODE)
    ensures UnitEnd(START_CODE + u + rest, 4 + i) == 4 + |u|
    decreases |u| - i
  {
    var s := START_CODE + u + rest;
    if i < |u| {
      UnitEndsBeforeStartCode(u, rest, i + 1);
      assert s[4 + i] == u[i];
      assert i + 1 < |u| ==> s[4 + i + 1] == u[i + 1];
      assert i + 2 < |u| ==> s[4 + i + 2] == u[i + 2];
      assert i == |u| - 2 ==> s[4 + i + 1] == u[|u| - 1];
    } else if rest != [] {
      assert s[4 + |u|] == rest[0] && s[4 + |u| + 1] == rest[1] && s[4 + |u| + 2] == rest[2];
      assert rest[..4][0] == 0 && rest[..4][1] == 0 && rest[..4][2] == 0;
    }
  }

  lemma {:induction false} FramedSnoc(units: seq<Bytes>, u: Bytes)
    ensures Framed(units + [u]) == Framed(units) + START_CODE + u
  {
    if units == [] {
      assert [u][1..] == [] && units + [u] == [u];
      assert START_CODE + u + [] == [] + START_CODE + u;
    } else {
      assert (units + [u])[1..] == units[1..] + [u];
      FramedSnoc(units[1..], u);
      var f, v := Framed(units[1..]), units[0];
      assert START_CODE + v + (f + START_CODE + u) == START_CODE + v + f + START_CODE + u;
    }
  }

  lemma SecondPrefix(s: Bytes)
    requires |s| >= 4 && s[..4] == START_CODE
    ensures NextPrefix(s, 0) == 1
  {
    assert s[0] == s[..4][0] == 0 && s[1] == s[..4][1] == 0 && s[2] == s[..4][2] == 0 && s[3] == s[..4][3] == 1;
    assert NextPrefix(s, 0) == NextPrefix(s, 1);
  }

  lemma PiecesOf(u: Bytes, rest: Bytes)
    ensures var s := START_CODE + u + rest;
            s[..4] == START_CODE && s[4..4 + |u|] == u && s[4 + |u|..] == rest
  {
  }

  lemma SplitTakes(s: Bytes, p: nat, e: nat)
    requires p + 3 <= e <= |s| && NextPrefix(s, 0) == p && UnitEnd(s, p + 3) == e
    ensures Split(s) == [s[p + 3..e]] + Split(s[e..])
  {
  }

  lemma FirstUnitSplitsOff(u: Bytes, rest: Bytes)
    requires WellFormedUnit(u)
    requires rest == [] || (|rest| >= 4 && rest[..4] == START_CODE)
    ensures Split(START_CODE + u + rest) == [u] + Split(rest)
  {
    var s := START_CODE + u + rest;
    PiecesOf(u, rest);
    SecondPrefix(s);
    UnitEndsBeforeStartCode(u, rest, 0);
    SplitTakes(s, 1, 4 + |u|);
  }

  /** A framed sample splits at its start codes into exactly the units put in. */
  lemma {:induction false} SampleSplitsBack(units: seq<Bytes>)
    requires forall u :: u in units ==> WellFormedUnit(u)
    ensures Split(Framed(units)) == units
  {
    if units == [] {
      assert NextPrefix([], 0) == 0;
    } else {
      var rest := Framed(units[1..]);
      assert units[1..] != [] ==> rest[..4] == START_CODE;
      FirstUnitSplitsOff(units[0], rest);
      SampleSplitsBack(units[1..]);
      assert [units[0]] + units[1..] == units;
    }
  }
}

module AccessUnits {
  import opened Options
  import opened Streams
  import opened AnnexB

  const IDR: int := 5
  const SLICE: int := 1
  const SPS: int := 7
  const PPS: int := 8

  /** nal_unit_type, the low five bits of the first byte. */
  function NalType(u: Bytes): int
    requires u != []
  {
    u[0] % 32
  }

  /** What the sender's select yields: a picture loss indication or the next unit from the channel. */
  datatype Event = Pli | Unit(data: Bytes)

  predicate IsUnit(e: Event, nalType: int) {
    e.Unit? && e.data != [] && NalType(e.data) == nalType
  }

  function Known(u: Option<Bytes>): seq<Bytes> {
    match u case Some(d) => [d] case None => []
  }

  /** The sender's variables and the samples it has written, each as the list of its units. */
  datatype Sender = Sender(sps: Option<Bytes>, pps: Option<Bytes>, needConfig: bool, samples: seq<seq<Bytes>>)

  const START: Sender := Sender(None, None, true, [])

  function Handle(s: Sender, e: Event): Sender {
    match e
    case Pli => s.(needConfig := true)
    case Unit(d) =>
      if d == [] then s
      else if NalType(d) == SPS then s.(sps := Some(d))
      else if NalType(d) == PPS then s.(pps := Some(d))
      else if NalType(d) == IDR then
        s.(needConfig := false, samples := s.samples + [Known(s.sps) + Known(s.pps) + [d]])
      else if NalType(d) == SLICE then
        if s.needConfig && s.sps.Some? && s.pps.Some?
        then s.(needConfig := false, samples := s.samples + [[s.sps.value, s.pps.value, d]])
        else s.(samples := s.samples + [[d]])
      else s
  }

  function HandleAll(events: seq<Event>): Sender {
    if events == [] then START else Handle(HandleAll(events[..|events| - 1]), events[|events| - 1])
  }

  lemma HandleAllSnoc(events: seq<Event>, k: nat)
    requires k < |events|
    ensures HandleAll(events[..k + 1]) == Handle(HandleAll(events[..k]), events[k])
  {
    assert events[..k + 1][..k] == events[..k];
  }

  /** What has been written is never taken back. */
  lemma {:induction false} SamplesGrow(events: seq<Event>, k: nat)
    requires k <= |events|
    ensures HandleAll(events[..k]).samples <= HandleAll(events).samples
    decreases |events| - k
  {
    if k < |events| {
      SamplesGrow(events, k + 1);
      HandleAllSnoc(events, k);
    } else {
      assert events[..k] == events;
    }
  }

  // ---- The sender ----

  ghost predicate Frames(written: seq<Bytes>, samples: seq<seq<Bytes>>) {
    |written| <= |samples| && forall i :: 0 <= i < |written| ==> written[i] == Framed(samples[i])
  }

  method IdrUnit(sps: Option<Bytes>, pps: Option<Bytes>, d: Bytes) returns (au: Bytes)
    ensures au == Framed(Known(sps) + Known(pps) + [d])
  {
    au := [];
    if sps.Some? {
      FramedSnoc([], sps.value);
      au := au + START_CODE;
      au := au + sps.value;
    }
    assert [] + Known(sps) == Known(sps);
    if pps.Some? {
      FramedSnoc(Known(sps), pps.value);
      au := au + START_CODE;
      au := au + pps.value;
    } else {
      assert Known(sps) + [] == Known(sps);
    }
    FramedSnoc(Known(sps) + Known(pps), d);
    au := au + START_CODE;
    au := au + d;
  }

  method SliceUnit(configured: bool, sps: Option<Bytes>, pps: Option<Bytes>, d: Bytes) returns (frame: Bytes)
    requires configured ==> sps.Some? && pps.Some?
    ensures frame == Framed(if configured then [sps.value, pps.value, d] else [d])
  {
    frame := [];
    if configured {
      FramedSnoc([], sps.value);
      FramedSnoc([sps.value], pps.value);
      FramedSnoc([sps.value, pps.value], d);
      frame := frame + START_CODE + sps.value;
      frame := frame + START_CODE + pps.value;
    } else {
      FramedSnoc([], d);
    }
    frame := frame + START_CODE + d;
  }

  /** The sender's loop over what its select yields until the channel is closed or the peer is gone. The track
      refuses the write numbered accepted, if the loop gets that far, and the loop ends there. */
  method SendNALs(events: seq<Event>, accepted: nat) returns (written: seq<Bytes>)
    ensures Frames(written, HandleAll(events).samples)
    ensures |written| == |HandleAll(events).samples| || |written| == accepted
  {
    var sps, pps: Option<Bytes> := None, None;
    var needConfig := true;
    written := [];
    for k := 0 to |events|
      invariant HandleAll(events[..k]) == Sender(sps, pps, needConfig, HandleAll(events[..k]).samples)
      invariant Frames(written, HandleAll(events[..k]).samples)
      invariant |written| == |HandleAll(events[..k]).samples| <= accepted
    {
      HandleAllSnoc(events, k);
      SamplesGrow(events, k + 1);
      match events[k] {
        case Pli => needConfig := true;
        case Unit(d) =>
          if d == [] {
            continue;
          }
          if NalType(d) == SPS {
            sps := Some(d);
          } else if NalType(d) == PPS {
            pps := Some(d);
          } else if NalType(d) == IDR {
            var au := IdrUnit(sps, pps, d);
            needConfig := false;
            if |written| == accepted {
              return;
            }
            written := written + [au];
          } else if NalType(d) == SLICE {
            var configured := needConfig && sps.Some? && pps.Some?;
            var frame := SliceUnit(configured, sps, pps, d);
            needConfig := needConfig && !configured;
            if |written| == accepted {
              return;
            }
            written := written + [frame];
          }
      }
    }
    assert events[..|events|] == events;
  }

  // ---- What is sent when, said of the events alone ----

  function LatestOf(events: seq<Event>, nalType: int): Option<Bytes> {
    if events == [] then None
    else if IsUnit(events[|events| - 1], nalType) then Some(events[|events| - 1].data)
    else LatestOf(events[..|events| - 1], nalType)
  }

  predicate BothKnown(events: seq<Event>) {
    LatestOf(events, SPS).Some? && LatestOf(events, PPS).Some?
  }

  predicate IsPicture(e: Event) {
    IsUnit(e, IDR) || IsUnit(e, SLICE)
  }

  function Pictures(events: seq<Event>): seq<Bytes> {
    if events == [] then []
    else Pictures(events[..|events| - 1]) + if IsPicture(events[|events| - 1]) then [events[|events| - 1].data] else []
  }

  /** Since a picture loss, or the start, at p nothing has carried the parameter sets up to k: no IDR picture,
      and a slice only while they were not both known. */
  ghost predicate DueSince(events: seq<Event>, p: nat, k: nat) {
    && p <= k <= |events|
    && (p == 0 || events[p - 1].Pli?)
    && forall m :: p <= m < k ==>
         && !IsUnit(events[m], IDR)
         && (IsUnit(events[m], SLICE) ==> !BothKnown(events[..m]))
  }

  ghost predicate ConfigDue(events: seq<Event>) {
    exists p :: DueSince(events, p, |events|)
  }

  lemma DueStep(events: seq<Event>, e: Event)
    ensures ConfigDue(events + [e]) <==>
              e.Pli? || (ConfigDue(events) && !IsUnit(e, IDR) && (IsUnit(e, SLICE) ==> !BothKnown(events)))
  {
    var after, n := events + [e], |events|;
    assert forall m :: 0 <= m <= n ==> after[..m] == events[..m];
    assert events[..n] == events;
    if e.Pli? {
      assert DueSince(after, n + 1, n + 1);
    } else {
      if ConfigDue(after) {
        var p :| DueSince(after, p, |after|);
        assert p != n + 1;
        assert after[n] == e;
        assert DueSince(events, p, n);
      }
      if ConfigDue(events) && !IsUnit(e, IDR) && (IsUnit(e, SLICE) ==> !BothKnown(events)) {
        var p :| DueSince(events, p, |events|);
        assert DueSince(after, p, n + 1);
      }
    }
  }

  /** The sender's variables mean what their names say. */
  lemma {:induction false} VariablesMean(events: seq<Event>)
    ensures HandleAll(events).sps == LatestOf(events, SPS)
    ensures HandleAll(events).pps == LatestOf(events, PPS)
    ensures HandleAll(events).needConfig <==> ConfigDue(events)
  {
    if events == [] {
      assert DueSince(events, 0, 0);
    } else {
      var before, e := events[..|events| - 1], events[|events| - 1];
      VariablesMean(before);
      assert before + [e] == events;
      DueStep(before, e);
    }
  }

  /** What the picture e has to be sent as, after these events. */
  ghost function SentAs(events: seq<Event>, e: Event): seq<Bytes>
    requires IsPicture(e)
  {
    if IsUnit(e, IDR) then Known(LatestOf(events, SPS)) + Known(LatestOf(events, PPS)) + [e.data]
    else if ConfigDue(events) && BothKnown(events)
    then [LatestOf(events, SPS).value, LatestOf(events, PPS).value, e.data]
    else [e.data]
  }

  lemma PictureStep(events: seq<Event>, e: Event)
    ensures HandleAll(events + [e]).samples ==
              HandleAll(events).samples + if IsPicture(e) then [SentAs(events, e)] else []
  {
    assert (events + [e])[..|events|] == events;
    VariablesMean(events);
  }

  /** One sample for every picture, in the order of the pictures, and each ends in its picture. */
  lemma {:induction false} SamplesCarryThePictures(events: seq<Event>)
    ensures |HandleAll(events).samples| == |Pictures(events)|
    ensures forall i :: 0 <= i < |Pictures(events)| ==>
              var units := HandleAll(events).samples[i]; units != [] && units[|units| - 1] == Pictures(events)[i]
  {
    if events != [] {
      var before, e := events[..|events| - 1], events[|events| - 1];
      assert before + [e] == events;
      SamplesCarryThePictures(before);
      PictureStep(before, e);
    }
  }

  /** Every picture is sent with the configuration that is due to it: an IDR picture behind the latest SPS and
      PPS seen so far; a slice behind both exactly if they are known and nothing has carried them since the
      last picture loss or the start. */
  lemma EveryPictureGetsItsConfig(events: seq<Event>, k: nat)
    requires k < |events| && IsPicture(events[k])
    ensures |Pictures(events[..k])| < |HandleAll(events).samples|
    ensures HandleAll(events).samples[|Pictures(events[..k])|] == SentAs(events[..k], events[k])
  {
    SamplesCarryThePictures(events[..k]);
    PictureStep(events[..k], events[k]);
    assert events[..k] + [events[k]] == events[..k + 1];
    SamplesGrow(events, k + 1);
  }

  /** The first slice after a picture loss, with no IDR picture between, carries both parameter sets if they
      are known. */
  lemma FirstSliceAfterLoss(events: seq<Event>, p: nat, k: nat)
    requires p < k < |events| && events[p].Pli? && IsUnit(events[k], SLICE)
    requires forall m :: p < m < k ==> !IsPicture(events[m])
    requires BothKnown(events[..k])
    ensures |Pictures(events[..k])| < |HandleAll(events).samples|
    ensures HandleAll(events).samples[|Pictures(events[..k])|] ==
              [LatestOf(events[..k], SPS).value, LatestOf(events[..k], PPS).value, events[k].data]
  {
    EveryPictureGetsItsConfig(events, k);
    assert DueSince(events[..k], p + 1, k);
  }

  /** A later slice does not carry them again. */
  lemma LaterSlicesGoAlone(events: seq<Event>, m: nat, k: nat)
    requires m < k < |events| && IsPicture(events[m]) && IsUnit(events[k], SLICE)
    requires BothKnown(events[..m]) && forall q :: m < q < k ==> !events[q].Pli?
    ensures |Pictures(events[..k])| < |HandleAll(events).samples|
    ensures HandleAll(events).samples[|Pictures(events[..k])|] == [events[k].data]
  {
    EveryPictureGetsItsConfig(events, k);
    assert forall q :: 0 <= q < k ==> events[..k][q] == events[q];
    assert events[..k][..m] == events[..m];
  }

  // ---- The header byte ----

  /** The first byte of a unit is forbidden_zero_bit, nal_ref_idc and nal_unit_type (section 7.3.1 of ITU-T H.264);
      whatever the others are, the type alone decides what the unit is to the sender: 1 a slice, 5 an IDR
      picture, 7 an SPS, 8 a PPS (table 7-1), anything else is skipped. */
  lemma HeaderByteDecides(forbidden: int, refIdc: int, unitType: int, payload: Bytes)
    requires 0 <= forbidden < 2 && 0 <= refIdc < 4 && 0 <= unitType < 32
    ensures var e := Unit([128 * forbidden + 32 * refIdc + unitType] + payload);
            && (IsUnit(e, SLICE) <==> unitType == 1)
            && (IsUnit(e, IDR) <==> unitType == 5)
            && (IsUnit(e, SPS) <==> unitType == 7)
            && (IsUnit(e, PPS) <==> unitType == 8)
            && (IsPicture(e) <==> unitType == 1 || unitType == 5)
  {
    var u: Bytes := [128 * forbidden + 32 * refIdc + unitType] + payload;
    assert u[0] == 128 * forbidden + 32 * refIdc + unitType;
  }

  /** Only the five kinds of events change anything, each in its own way. */
  lemma OtherUnitsAreSkipped(events: seq<Event>, e: Event)
    requires !e.Pli? && !IsUnit(e, 1) && !IsUnit(e, 5) && !IsUnit(e, 7) && !IsUnit(e, 8)
    ensures HandleAll(events + [e]) == HandleAll(events)
  {
    assert (events + [e])[..|events|] == events;
  }

  /** Every sample begins with a four byte start code. */
  lemma SamplesBeginWithStartCode(units: seq<Bytes>)
    requires units != []
    ensures |Framed(units)| >= 4 && Framed(units)[..4] == [0, 0, 0, 1]
    ensures Framed(units)[4..] == units[0] + Framed(units[1..])
  {
    assert Framed(units) == START_CODE + (units[0] + Framed(units[1..]));
  }

  // ---- Units of the samples come from the stream ----

  ghost predicate UnitsFrom(units: seq<Bytes>, events: seq<Event>) {
    forall u :: u in units ==> Unit(u) in events
  }

  lemma {:induction false} LatestWasSeen(events: seq<Event>, nalType: int)
    ensures UnitsFrom(Known(LatestOf(events, nalType)), events)
  {
    if events != [] && !IsUnit(events[|events| - 1], nalType) {
      LatestWasSeen(events[..|events| - 1], nalType);
    }
  }

  lemma {:induction false} SamplesAreMadeOfUnitsSeen(events: seq<Event>)
    ensures forall i :: 0 <= i < |HandleAll(events).samples| ==> UnitsFrom(HandleAll(events).samples[i], events)
  {
    if events != [] {
      var before, e := events[..|events| - 1], events[|events| - 1];
      assert before + [e] == events;
      SamplesAreMadeOfUnitsSeen(before);
      PictureStep(before, e);
      if IsPicture(e) {
        assert e == Unit(e.data);
        LatestWasSeen(before, SPS);
        LatestWasSeen(before, PPS);
      }
    }
  }

  /** Each sample written splits at its start codes into exactly the units it was built from. */
  lemma WrittenSamplesSplitBack(events: seq<Event>, written: seq<Bytes>, i: nat)
    requires forall u :: Unit(u) in events && u != [] ==> WellFormedUnit(u)
    requires Frames(written, HandleAll(events).samples) && i < |written|
    ensures Split(written[i]) == HandleAll(events).samples[i]
  {
    SamplesAreMadeOfUnitsSeen(events);
    NoEmptyUnits(events);
    SampleSplitsBack(HandleAll(events).samples[i]);
  }

  lemma {:induction false} NoEmptyUnits(events: seq<Event>)
    ensures HandleAll(events).sps != Some([]) && HandleAll(events).pps != Some([])
    ensures forall i :: 0 <= i < |HandleAll(events).samples| ==> [] !in HandleAll(events).samples[i]
  {
    if events != [] {
      NoEmptyUnits(events[..|events| - 1]);
    }
  }
}

/** The bounded channel between the reader of NAL units and the sender, as a transition system. */
module DroppingChannels {
  import opened Streams
  import opened AccessUnits

  const CAPACITY: nat := 2

  /** read is what the reader has taken from the stream, events what the sender's select has yielded. */
  datatype Channel = Channel(read: seq<Bytes>, buffered: seq<Bytes>, events: seq<Event>)

  datatype Step =
    | Read(nal: Bytes)   // the reader offers a unit without blocking: it is dropped if the channel is full
    | Take               // the sender's select takes a unit
    | Loss               // the sender's select takes a picture loss indication

  /** A step that is not possible waits. */
  function Apply(c: Channel, s: Step): Channel {
    match s
    case Read(nal) =>
      c.(read := c.read + [nal],
         buffered := if nal == [] || |c.buffered| == CAPACITY then c.buffered else c.buffered + [nal])
    case Take =>
      if c.buffered == [] then c
      else c.(buffered := c.buffered[1..], events := c.events + [Unit(c.buffered[0])])
    case Loss => c.(events := c.events + [Pli])
  }

  const EMPTY: Channel := Channel([], [], [])

  function After(run: seq<Step>): Channel {
    if run == [] then EMPTY else Apply(After(run[..|run| - 1]), run[|run| - 1])
  }

  /** a is an order-preserving selection from b. */
  predicate Subsequence<T(==)>(a: seq<T>, b: seq<T>) {
    if a == [] then true
    else if b == [] then false
    else if a[|a| - 1] == b[|b| - 1] && Subsequence(a[..|a| - 1], b[..|b| - 1]) then true
    else Subsequence(a, b[..|b| - 1])
  }

  lemma SubsequenceSkips<T>(a: seq<T>, b: seq<T>, x: T)
    requires Subsequence(a, b)
    ensures Subsequence(a, b + [x])
  {
    assert (b + [x])[..|b|] == b;
  }

  lemma SubsequenceTakes<T>(a: seq<T>, b: seq<T>, x: T)
    requires Subsequence(a, b)
    ensures Subsequence(a + [x], b + [x])
  {
    assert (b + [x])[..|b|] == b && (a + [x])[..|a|] == a;
  }

  function UnitsOf(events: seq<Event>): seq<Bytes> {
    if events == [] then []
    else UnitsOf(events[..|events| - 1]) + match events[|events| - 1] case Unit(d) => [d] case Pli => []
  }

  function PictureUnits(units: seq<Bytes>): seq<Bytes> {
    if units == [] then []
    else PictureUnits(units[..|units| - 1]) + if IsPicture(Unit(units[|units| - 1])) then [units[|units| - 1]] else []
  }

  lemma {:induction false} PicturesAreOfUnits(events: seq<Event>)
    ensures Pictures(events) == PictureUnits(UnitsOf(events))
  {
    if events != [] {
      var before := events[..|events| - 1];
      PicturesAreOfUnits(before);
      match events[|events| - 1]
      case Unit(d) => assert (UnitsOf(before) + [d])[..|UnitsOf(before)|] == UnitsOf(before);
      case Pli => assert UnitsOf(before) + [] == UnitsOf(before);
    }
  }

  lemma {:induction false} SelectionOfPictures(a: seq<Bytes>, b: seq<Bytes>)
    requires Subsequence(a, b)
    ensures Subsequence(PictureUnits(a), PictureUnits(b))
    decreases |b|
  {
    if a != [] {
      var a', b', x := a[..|a| - 1], b[..|b| - 1], b[|b| - 1];
      if a[|a| - 1] == x && Subsequence(a', b') {
        SelectionOfPictures(a', b');
        assert PictureUnits(a') + [] == PictureUnits(a') && PictureUnits(b') + [] == PictureUnits(b');
        if IsPicture(Unit(x)) {
          SubsequenceTakes(PictureUnits(a'), PictureUnits(b'), x);
        }
      } else {
        SelectionOfPictures(a, b');
        assert PictureUnits(b') + [] == PictureUnits(b');
        if IsPicture(Unit(x)) {
          SubsequenceSkips(PictureUnits(a), PictureUnits(b'), x);
        }
      }
    }
  }

  lemma {:induction false} PrefixOfSelection<T>(a: seq<T>, c: seq<T>, b: seq<T>)
    requires Subsequence(a + c, b)
    ensures Subsequence(a, b)
    decreases |b|
  {
    if c == [] {
      assert a + c == a;
    } else if a != [] {
      var ac := a + c;
      assert ac[..|ac| - 1] == a + c[..|c| - 1];
      var b', x := b[..|b| - 1], b[|b| - 1];
      assert b == b' + [x];
      if ac[|ac| - 1] == x && Subsequence(a + c[..|c| - 1], b') {
        PrefixOfSelection(a, c[..|c| - 1], b');
      } else {
        PrefixOfSelection(a, c, b');
      }
      SubsequenceSkips(a, b', x);
    }
  }

  /** What the sender has taken, followed by what it will find buffered. */
  function Flow(c: Channel): seq<Bytes> {
    UnitsOf(c.events) + c.buffered
  }

  lemma UnitsOfSnoc(events: seq<Event>, e: Event)
    ensures UnitsOf(events + [e]) == UnitsOf(events) + match e case Unit(d) => [d] case Pli => []
  {
    assert (events + [e])[..|events|] == events;
  }

  /** A unit joins the flow exactly if it is not empty and the channel has room, and nothing leaves it. */
  lemma FlowStep(c: Channel, s: Step)
    requires |c.buffered| <= 2
    ensures Flow(Apply(c, s)) ==
              Flow(c) + if s.Read? && s.nal != [] && |c.buffered| < 2 then [s.nal] else []
  {
    match s
    case Read(_) =>
    case Take =>
      if c.buffered != [] {
        UnitsOfSnoc(c.events, Unit(c.buffered[0]));
      }
    case Loss =>
      UnitsOfSnoc(c.events, Pli);
  }

  /** In every reachable state the channel holds at most its capacity, and what the sender has taken, followed
      by what is buffered, is an order-preserving selection of what was read. */
  lemma {:induction false} UnitsKeepTheirOrder(run: seq<Step>)
    ensures |After(run).buffered| <= 2
    ensures Subsequence(Flow(After(run)), After(run).read)
  {
    if run != [] {
      var c, s := After(run[..|run| - 1]), run[|run| - 1];
      UnitsKeepTheirOrder(run[..|run| - 1]);
      FlowStep(c, s);
      if s.Read? {
        SubsequenceSkips(Flow(c), c.read, s.nal);
        SubsequenceTakes(Flow(c), c.read, s.nal);
      }
      assert Flow(c) + [] == Flow(c);
    }
  }

  /** Despite drops, the pictures sent are, in order, a selection of the pictures read. */
  lemma PicturesSentWereRead(run: seq<Step>, sent: seq<Bytes>)
    requires |sent| <= |HandleAll(After(run).events).samples|
    requires forall i :: 0 <= i < |sent| ==>
               var units := HandleAll(After(run).events).samples[i]; units != [] && sent[i] == units[|units| - 1]
    ensures Subsequence(sent, PictureUnits(After(run).read))
  {
    var events, read := After(run).events, After(run).read;
    UnitsKeepTheirOrder(run);
    PrefixOfSelection(UnitsOf(events), After(run).buffered, read);
    SelectionOfPictures(UnitsOf(events), read);
    PicturesAreOfUnits(events);
    SamplesCarryThePictures(events);
    var all := Pictures(events);
    assert sent == all[..|sent|];
    assert all == sent + all[|sent|..];
    PrefixOfSelection(sent, all[|sent|..], PictureUnits(read));
  }
}
