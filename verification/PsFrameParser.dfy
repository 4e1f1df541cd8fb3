/** The frame parser object of media/ps/frame-parser.go on top of the parser of packs. */
module PsFrameParser {
  import opened Bytes
  import opened Sequences
  import opened Options
  import opened StartCode
  import opened PsPacks
  import opened PsMachine
  import opened PsParser
  import opened PsFrames

  /** Everything the frame parser does with one stretch of the stream. */
  function FrameRun(cur: Option<Frame>, s: State, data: seq<byte>): (Grouping, State)
    requires InDomain(s)
  {
    var r := Run(s, data);
    (Group(cur, r.0), r.1)
  }

  /** The frame events and the final state depend on the bytes only, and not on the chunks. */
  lemma FramesIgnoreChunking(cur: Option<Frame>, s: State, chunks: seq<seq<byte>>)
    requires InDomain(s)
    ensures (Group(cur, RunChunks(s, chunks).0), RunChunks(s, chunks).1) == FrameRun(cur, s, Concat(chunks))
  {
    ChunkingDoesNotMatter(s, chunks);
  }

  function Before(events: seq<FrameEvent>, later: (Grouping, State)): (Grouping, State) {
    (Grouping(later.0.current, events + later.0.events), later.1)
  }

  lemma BeforeNothing(later: (Grouping, State))
    ensures Before([], later) == later
  {
    assert [] + later.0.events == later.0.events;
  }

  /** One answer of the parser, and then the rest. */
  lemma FrameRunStep(cur: Option<Frame>, s: State, data: seq<byte>, answer: seq<Event>, s1: State, rest: seq<byte>)
    requires InDomain(s) && InDomain(s1) && |answer| <= 1
    requires Run(s, data) == Then(answer, Run(s1, rest))
    ensures FrameRun(cur, s, data)
            == if answer == [] then FrameRun(cur, s1, rest)
               else var g := GroupStep(cur, answer[0]); Before(g.events, FrameRun(g.current, s1, rest))
  {
    hide Run, InDomain, GroupStep;
    var later := Run(s1, rest);
    if answer == [] {
      ThenNothing(later);
    } else {
      var events := answer + later.0;
      assert events[0] == answer[0] && events[1..] == later.0;
    }
  }

  class FrameParser {
    const parser: Parser
    var curFrame: Option<Frame>
    var frame: Option<Frame>

    ghost predicate Valid()
      reads this, parser, parser.finder, parser.finder.buffer, parser.needParser
    {
      parser.Valid() && parser.Cleared()
    }

    constructor ()
      ensures Valid() && parser.Abs() == START && curFrame == None && frame == None
    {
      parser := new Parser();
      curFrame, frame := None, None;
    }

    /** complete: the current frame becomes the one to take; one not taken is lost. */
    method CompleteCurrent()
      requires curFrame.Some?
      modifies this
      ensures frame == old(curFrame) && curFrame == None
    {
      frame := curFrame;
      curFrame := None;
    }

    /** The switch over what was just parsed. */
    method AddPack(pack: Pack) returns (ok: bool, err: Option<FrameError>)
      modifies this
      ensures ok ==> err.None? && frame.Some?
      ensures GroupStep(old(curFrame), Packed(pack))
              == Grouping(curFrame, if ok then [Finished(frame.value)] else if err.Some? then [Failure(err.value)] else [])
    {
      ok, err := false, None;
      match pack
      case Psh(b) =>
        if curFrame.Some? {
          CompleteCurrent();
          ok := true;
        }
        curFrame := Some(NewFrame(b));
      case Sys(_, _, _) =>
        if curFrame.Some? {
          if curFrame.value.sys.None? {
            curFrame := Some(curFrame.value.(sys := Some(pack)));
          } else {
            err, curFrame := Some(DuplicateSys), None;
          }
        }
      case Psm(_, _, _, _, _, _) =>
        if curFrame.Some? {
          if curFrame.value.psm.None? {
            curFrame := Some(curFrame.value.(psm := Some(pack)));
          } else {
            err, curFrame := Some(DuplicatePsm), None;
          }
        }
      case Pes(h, _) =>
        if h.id != 0 && curFrame.Some? {
          curFrame := Some(curFrame.value.(pes := curFrame.value.pes + [pack]));
        }
    }

    /** What one call of Parse answers. */
    static function Answered(ok: bool, frame: Option<Frame>, err: Option<FrameError>): seq<FrameEvent> {
      if ok && frame.Some? then [Finished(frame.value)] else if err.Some? then [Failure(err.value)] else []
    }

    /** Parse: stops at the first complete frame or error; its answer, and then the frames of the
        remaining bytes, are the frames of all the bytes. */
    method Parse(data: seq<byte>) returns (ok: bool, remain: seq<byte>, err: Option<FrameError>)
      requires Valid()
      modifies this, parser, parser.finder, parser.finder.buffer, parser.needParser
      ensures Valid() && (ok ==> frame.Some? && err.None?)
      ensures !ok && err.None? ==> remain == []
      ensures FrameRun(old(curFrame), old(parser.Abs()), data)
              == Before(Answered(ok, frame, err), FrameRun(curFrame, parser.Abs(), remain))
    {
      hide Run, Rank, GroupStep, FrameRun, InDomain, FindIn;
      remain, ok, err := data, false, None;
      BeforeNothing(FrameRun(curFrame, parser.Abs(), data));
      while remain != []
        invariant Valid() && !ok && err.None?
        invariant FrameRun(curFrame, parser.Abs(), remain) == FrameRun(old(curFrame), old(parser.Abs()), data)
        decreases |remain|, Rank(parser.Abs())
      {
        ghost var s := parser.Abs();
        ghost var cur := curFrame;
        ghost var had := remain;
        var parsed, rest, failed := parser.Parse(remain);
        FrameRunStep(cur, s, had, Answer(parsed, parser.Pack(), failed), parser.Abs(), rest);
        remain := rest;
        if failed.Some? {
          curFrame := None;
          err := Some(ParserError(failed.value));
          FailedStep(cur, failed.value);
          return;
        }
        if parsed {
          ghost var found := parser.Pack();
          var pack := parser.TakePack();
          if pack.Some? {
            ok, err := AddPack(pack.value);
            if ok || err.Some? {
              return;
            }
          } else {
            NoPackStep(curFrame, found);
          }
          BeforeNothing(FrameRun(curFrame, parser.Abs(), remain));
        }
        BeforeNothing(FrameRun(curFrame, parser.Abs(), remain));
      }
    }

    static lemma NoPackStep(cur: Option<Frame>, p: Pack)
      requires p.Pes? && p.header.id == 0
      ensures GroupStep(cur, Packed(p)) == Grouping(cur, [])
    {
    }

    static lemma FailedStep(cur: Option<Frame>, e: PsError)
      ensures GroupStep(cur, Failed(e)) == Grouping(None, [Failure(ParserError(e))])
    {
    }

    /** Complete: declares the current frame complete, at the end of the stream. */
    method Complete() returns (ok: bool)
      modifies this
      ensures ok <==> old(curFrame).Some?
      ensures ok ==> frame == old(curFrame)
      ensures !ok ==> frame == old(frame)
      ensures curFrame == None
    {
      ok := curFrame.Some?;
      if ok {
        CompleteCurrent();
      }
    }

    method Take() returns (f: Option<Frame>)
      modifies `frame
      ensures f == old(frame) && frame == None
    {
      f := frame;
      frame := None;
    }
  }
}
