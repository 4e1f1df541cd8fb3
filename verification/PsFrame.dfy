/** The grouping of packs into frames (media/ps/frame-parser.go, media/ps/frame.go). */
module PsFrames {
  import opened Bytes
  import opened Sequences
  import opened Options
  import opened PsPacks
  import opened PsMachine

  /** A frame under construction always has its pack header. */
  datatype Frame = Frame(psh: seq<byte>, sys: Option<Pack>, psm: Option<Pack>, pes: seq<Pack>)

  datatype FrameError = ParserError(error: PsError) | DuplicateSys | DuplicatePsm

  datatype FrameEvent = Finished(frame: Frame) | Failure(error: FrameError)

  function NewFrame(psh: seq<byte>): Frame {
    Frame(psh, None, None, [])
  }

  datatype Grouping = Grouping(current: Option<Frame>, events: seq<FrameEvent>)

  /** What FrameParser.Parse does with one answer of the parser. A pack whose start code ends in 0 is
      no pack for it; packs before the first pack header are dropped. */
  function GroupStep(cur: Option<Frame>, ev: Event): Grouping {
    match ev
    case Failed(e) => Grouping(None, [Failure(ParserError(e))])
    case Packed(p) =>
      match p
      case Psh(b) => Grouping(Some(NewFrame(b)), if cur.Some? then [Finished(cur.value)] else [])
      case Sys(_, _, _) =>
        if cur.None? then Grouping(None, [])
        else if cur.value.sys.Some? then Grouping(None, [Failure(DuplicateSys)])
        else Grouping(Some(cur.value.(sys := Some(p))), [])
      case Psm(_, _, _, _, _, _) =>
        if cur.None? then Grouping(None, [])
        else if cur.value.psm.Some? then Grouping(None, [Failure(DuplicatePsm)])
        else Grouping(Some(cur.value.(psm := Some(p))), [])
      case Pes(h, _) =>
        if h.id == 0 || cur.None? then Grouping(cur, [])
        else Grouping(Some(cur.value.(pes := cur.value.pes + [p])), [])
  }

  function Group(cur: Option<Frame>, events: seq<Event>): Grouping
    decreases events
  {
    if events == [] then Grouping(cur, [])
    else
      var g := GroupStep(cur, events[0]);
      var rest := Group(g.current, events[1..]);
      Grouping(rest.current, g.events + rest.events)
  }

  lemma {:induction false} GroupSplit(cur: Option<Frame>, a: seq<Event>, b: seq<Event>)
    ensures var g := Group(cur, a); var r := Group(g.current, b);
            Group(cur, a + b) == Grouping(r.current, g.events + r.events)
    decreases a
  {
    if a == [] {
      assert a + b == b;
    } else {
      assert (a + b)[1..] == a[1..] + b;
      GroupSplit(GroupStep(cur, a[0]).current, a[1..], b);
    }
  }

  // ----- frames are the segments between pack headers

  /** The packs up to the next pack header. */
  function Body(packs: seq<Pack>): seq<Pack> {
    if packs == [] || packs[0].Psh? then [] else [packs[0]] + Body(packs[1..])
  }

  /** The packs from the next pack header on. */
  function FromHeader(packs: seq<Pack>): (r: seq<Pack>)
    ensures |r| <= |packs| && (r == [] || r[0].Psh?)
  {
    if packs == [] || packs[0].Psh? then packs else FromHeader(packs[1..])
  }

  /** The stream cut at its pack headers: each segment is a header and the packs behind it. */
  function Segments(packs: seq<Pack>): seq<seq<Pack>>
    requires packs == [] || packs[0].Psh?
    decreases |packs|
  {
    if packs == [] then []
    else [[packs[0]] + Body(packs[1..])] + Segments(FromHeader(packs[1..]))
  }

  function SysOf(body: seq<Pack>): seq<Pack> {
    if body == [] then [] else (if body[0].Sys? then [body[0]] else []) + SysOf(body[1..])
  }

  function PsmOf(body: seq<Pack>): seq<Pack> {
    if body == [] then [] else (if body[0].Psm? then [body[0]] else []) + PsmOf(body[1..])
  }

  function PesOf(body: seq<Pack>): seq<Pack> {
    if body == [] then []
    else (if body[0].Pes? && body[0].header.id != 0 then [body[0]] else []) + PesOf(body[1..])
  }

  function First(packs: seq<Pack>): Option<Pack> {
    if packs == [] then None else Some(packs[0])
  }

  predicate IsSegment(segment: seq<Pack>) {
    segment != [] && segment[0].Psh? && forall i :: 1 <= i < |segment| ==> !segment[i].Psh?
  }

  /** The first repeated system header or stream map, given which are there already. */
  function Duplicate(hasSys: bool, hasPsm: bool, body: seq<Pack>): Option<FrameError>
    decreases body
  {
    if body == [] then None
    else if body[0].Sys? && hasSys then Some(DuplicateSys)
    else if body[0].Psm? && hasPsm then Some(DuplicatePsm)
    else Duplicate(hasSys || body[0].Sys?, hasPsm || body[0].Psm?, body[1..])
  }

  /** The frame of a segment: its header, its first system header and stream map if any, and its PES
      packs in stream order. */
  function FrameOf(segment: seq<Pack>): Frame {
    if segment == [] || !segment[0].Psh? then NewFrame([])
    else
      Frame(segment[0].bytes10, First(SysOf(segment[1..])), First(PsmOf(segment[1..])), PesOf(segment[1..]))
  }

  function ErrorOf(segment: seq<Pack>): Option<FrameError> {
    if segment == [] then None else Duplicate(false, false, segment[1..])
  }

  lemma {:induction false} PackEventsSplit(a: seq<Pack>, b: seq<Pack>)
    ensures PackEvents(a + b) == PackEvents(a) + PackEvents(b)
  {
    if a == [] {
      assert a + b == b;
    } else {
      assert (a + b)[1..] == a[1..] + b;
      PackEventsSplit(a[1..], b);
    }
  }

  /** The frame so far and what the body adds to it. */
  function Extended(f: Frame, body: seq<Pack>): Frame {
    Frame(f.psh, if f.sys.Some? then f.sys else First(SysOf(body)),
          if f.psm.Some? then f.psm else First(PsmOf(body)), f.pes + PesOf(body))
  }

  lemma {:induction false} NothingBeforeHeader(body: seq<Pack>)
    requires forall i :: 0 <= i < |body| ==> !body[i].Psh?
    ensures Group(None, PackEvents(body)) == Grouping(None, [])
  {
    if body != [] {
      var events := PackEvents(body);
      assert events[0] == Packed(body[0]) && events[1..] == PackEvents(body[1..]);
      NothingBeforeHeader(body[1..]);
    }
  }

  lemma ExtendedCons(f: Frame, g: Frame, body: seq<Pack>)
    requires body != [] && GroupStep(Some(f), Packed(body[0])) == Grouping(Some(g), []) && !body[0].Psh?
    ensures Extended(f, body) == Extended(g, body[1..])
  {
    if body[0].Pes? && body[0].header.id != 0 {
      assert f.pes + [body[0]] + PesOf(body[1..]) == f.pes + ([body[0]] + PesOf(body[1..]));
    } else {
      assert PesOf(body) == PesOf(body[1..]);
    }
  }

  /** One pack behind a header: the frame goes on, or the first duplicate is met. */
  lemma BodyStep(f: Frame, body: seq<Pack>)
    requires body != [] && !body[0].Psh?
    ensures var g := GroupStep(Some(f), Packed(body[0])); var d := Duplicate(f.sys.Some?, f.psm.Some?, body);
            match g.current
            case Some(next) => g.events == [] && d == Duplicate(next.sys.Some?, next.psm.Some?, body[1..])
            case None => d.Some? && g.events == [Failure(d.value)]
  {
  }

  lemma GroupCons(cur: Option<Frame>, packs: seq<Pack>)
    requires packs != []
    ensures var g := GroupStep(cur, Packed(packs[0])); var r := Group(g.current, PackEvents(packs[1..]));
            Group(cur, PackEvents(packs)) == Grouping(r.current, g.events + r.events)
  {
    var events := PackEvents(packs);
    assert events[0] == Packed(packs[0]) && events[1..] == PackEvents(packs[1..]);
  }

  /** The packs behind a header either extend its frame, or end in one error and drop the rest. */
  lemma {:induction false} BodyGroups(f: Frame, body: seq<Pack>)
    requires forall i :: 0 <= i < |body| ==> !body[i].Psh?
    ensures Group(Some(f), PackEvents(body))
            == match Duplicate(f.sys.Some?, f.psm.Some?, body)
               case None => Grouping(Some(Extended(f, body)), [])
               case Some(e) => Grouping(None, [Failure(e)])
    decreases body
  {
    if body == [] {
      assert f.pes + [] == f.pes;
    } else {
      hide Extended, GroupStep, Duplicate, Group;
      GroupCons(Some(f), body);
      BodyStep(f, body);
      var g := GroupStep(Some(f), Packed(body[0]));
      match g.current
      case Some(next) =>
        BodyGroups(next, body[1..]);
        ExtendedCons(f, next, body);
        NothingAdded(Group(Some(next), PackEvents(body[1..])).events);
      case None =>
        NothingBeforeHeader(body[1..]);
        assert g.events + [] == g.events;
    }
  }

  lemma NothingAdded(events: seq<FrameEvent>)
    ensures [] + events == events
  {
  }

  /** What a segment leaves behind. */
  function Current(segment: seq<Pack>): Option<Frame> {
    if ErrorOf(segment).None? then Some(FrameOf(segment)) else None
  }

  function Errors(segment: seq<Pack>): seq<FrameEvent> {
    match ErrorOf(segment)
    case None => []
    case Some(e) => [Failure(e)]
  }

  function Completed(cur: Option<Frame>): seq<FrameEvent> {
    match cur
    case None => []
    case Some(f) => [Finished(f)]
  }

  /** A segment completes the frame before it, if any, and leaves its own frame or one error. */
  lemma SegmentGroups(cur: Option<Frame>, segment: seq<Pack>)
    requires IsSegment(segment)
    ensures Group(cur, PackEvents(segment)) == Grouping(Current(segment), Completed(cur) + Errors(segment))
  {
    var events := PackEvents(segment);
    assert events[0] == Packed(segment[0]) && events[1..] == PackEvents(segment[1..]);
    var f := NewFrame(segment[0].bytes10);
    assert forall i :: 0 <= i < |segment[1..]| ==> segment[1..][i] == segment[i + 1];
    BodyGroups(f, segment[1..]);
    assert [] + PesOf(segment[1..]) == PesOf(segment[1..]);
  }

  lemma {:induction false} CutAtHeader(packs: seq<Pack>)
    ensures packs == Body(packs) + FromHeader(packs)
    ensures forall i :: 0 <= i < |Body(packs)| ==> !Body(packs)[i].Psh?
  {
    if packs != [] && !packs[0].Psh? {
      CutAtHeader(packs[1..]);
    }
  }

  /** A frame or an error for each segment; the last segment's frame is still under construction. */
  function FrameEvents(segments: seq<seq<Pack>>): seq<FrameEvent> {
    if segments == [] then []
    else if |segments| == 1 then Errors(segments[0])
    else Errors(segments[0]) + Completed(Current(segments[0])) + FrameEvents(segments[1..])
  }

  lemma {:induction false} SegmentsAreSegments(packs: seq<Pack>)
    requires packs == [] || packs[0].Psh?
    ensures forall i :: 0 <= i < |Segments(packs)| ==> IsSegment(Segments(packs)[i])
    ensures Concat(Segments(packs)) == packs && (packs != [] ==> Segments(packs) != [])
    decreases |packs|
  {
    hide Segments, Body, FromHeader;
    SegmentsCons(packs);
    if packs != [] {
      var segment := [packs[0]] + Body(packs[1..]);
      var rest := FromHeader(packs[1..]);
      CutAtHeader(packs[1..]);
      SegmentsAreSegments(rest);
      ConcatSplit([segment], Segments(rest));
      ConcatOne(segment);
      Assoc([packs[0]], Body(packs[1..]), rest);
      assert packs == [packs[0]] + packs[1..];
    }
  }

  lemma SegmentsCons(packs: seq<Pack>)
    requires packs == [] || packs[0].Psh?
    ensures Segments(packs)
            == if packs == [] then [] else [[packs[0]] + Body(packs[1..])] + Segments(FromHeader(packs[1..]))
  {
  }

  lemma {:induction false} SegmentsGroup(cur: Option<Frame>, segments: seq<seq<Pack>>)
    requires segments != [] && forall i :: 0 <= i < |segments| ==> IsSegment(segments[i])
    ensures Group(cur, PackEvents(Concat(segments)))
            == Grouping(Current(segments[|segments| - 1]), Completed(cur) + FrameEvents(segments))
    decreases segments
  {
    hide IsSegment, Current, Errors, Group, Completed;
    var rest := segments[1..];
    PackEventsSplit(segments[0], Concat(rest));
    GroupSplit(cur, PackEvents(segments[0]), PackEvents(Concat(rest)));
    SegmentGroups(cur, segments[0]);
    if rest == [] {
      GroupNothing(Current(segments[0]));
      assert Completed(cur) + Errors(segments[0]) + [] == Completed(cur) + Errors(segments[0]);
    } else {
      SegmentsGroup(Current(segments[0]), rest);
      assert Completed(cur) + Errors(segments[0]) + (Completed(Current(segments[0])) + FrameEvents(rest))
          == Completed(cur) + (Errors(segments[0]) + Completed(Current(segments[0])) + FrameEvents(rest));
    }
  }

  lemma GroupNothing(cur: Option<Frame>)
    ensures Group(cur, PackEvents([])) == Grouping(cur, [])
  {
  }

  /** The frame parser drops what comes before the first pack header and cuts the rest at the headers:
      each segment gives one frame with each of its packs in its place, or, when it repeats a system
      header or stream map, one error. The last frame is current until Complete is called. */
  lemma FramesAreSegments(packs: seq<Pack>)
    ensures packs == Body(packs) + Concat(Segments(FromHeader(packs)))
    ensures forall i :: 0 <= i < |Segments(FromHeader(packs))| ==> IsSegment(Segments(FromHeader(packs))[i])
    ensures var segments := Segments(FromHeader(packs));
            Group(None, PackEvents(packs))
            == Grouping(if segments == [] then None else Current(segments[|segments| - 1]), FrameEvents(segments))
  {
    CutAtHeader(packs);
    SegmentsAreSegments(FromHeader(packs));
    var segments := Segments(FromHeader(packs));
    PackEventsSplit(Body(packs), FromHeader(packs));
    GroupSplit(None, PackEvents(Body(packs)), PackEvents(FromHeader(packs)));
    NothingBeforeHeader(Body(packs));
    if segments != [] {
      SegmentsGroup(None, segments);
      assert Completed(None) + FrameEvents(segments) == FrameEvents(segments);
    }
  }

  /** No error means at most one system header and one stream map, so that the frame leaves none out. */
  lemma {:induction false} NoErrorNoLoss(hasSys: bool, hasPsm: bool, body: seq<Pack>)
    ensures Duplicate(hasSys, hasPsm, body).None?
            <==> |SysOf(body)| <= (if hasSys then 0 else 1) && |PsmOf(body)| <= (if hasPsm then 0 else 1)
    decreases body
  {
    if body != [] {
      NoErrorNoLoss(hasSys || body[0].Sys?, hasPsm || body[0].Psm?, body[1..]);
    }
  }
}
