/**
 * The clip-producing loop of pizero.py: every captured frame either seeds
 * the background model or runs the occupancy and recording-window logic,
 * which opens, writes and replaces a VideoWriter.
 */
module Recording {
  import opened Basics
  import opened Contours
  import opened Paths

  /** The occupancy `text` of the loop. */
  datatype Label = Unoccupied | Occupied

  /**
   * The configuration entries the loop reads. Times, including
   * `minimumVideoLength`, are integers in one common unit.
   */
  datatype RecordConfig = RecordConfig(minArea: real, minimumVideoLength: int, basepath: string, ext: string)

  /**
   * One captured frame after the vision steps: `stamp` is the time taken when
   * the frame is grabbed, `stampText` its strftime text for file names,
   * `clock` the time read again when a clip starts, and `areas` the areas of
   * the contours found.
   */
  datatype Frame = Frame(stamp: int, stampText: string, clock: int, areas: seq<real>)

  /** The calls made on VideoWriter objects. */
  datatype WriterOp = Open(path: string) | Write(stamp: int) | Release

  /**
   * The loop's variables between frames: whether `avg` is set, `text`,
   * `video_start`, `in_window`, and the file of the writer `out` refers to.
   */
  datatype Rec = Rec(seeded: bool, text: Label, videoStart: Option<int>, inWindow: bool, out: Option<string>)

  /** The variables before the first frame. */
  const Initial := Rec(false, Unoccupied, None, false, None)

  /**
   * Once seeded: a window is open exactly while a start time is kept, only
   * an occupied room keeps one, and an occupied room always has a writer.
   */
  predicate Inv(s: Rec) {
    s.seeded ==>
      && (s.inWindow <==> s.videoStart.Some?)
      && (s.text == Unoccupied ==> s.videoStart.None?)
      && (s.text == Occupied ==> s.out.Some?)
  }

  /** What a VideoWriter discipline looks like from outside: no writer, one writer on a file, or a broken discipline. */
  datatype Writer = Closed | Recording(path: string) | Misused

  /** A second open while one is open, a write or release without an open writer, all break the discipline. */
  function Apply(w: Writer, op: WriterOp): Writer {
    match op
    case Open(p) => if w == Closed then Recording(p) else Misused
    case Write(_) => if w.Recording? then w else Misused
    case Release => if w.Recording? then Closed else Misused
  }

  function Replay(w: Writer, ops: seq<WriterOp>): Writer
    decreases |ops|
  {
    if ops == [] then w else Replay(Apply(w, ops[0]), ops[1..])
  }

  lemma {:induction false} ReplayAppend(w: Writer, a: seq<WriterOp>, b: seq<WriterOp>)
    ensures Replay(w, a + b) == Replay(Replay(w, a), b)
    decreases |a|
  {
    if a == [] {
      assert a + b == b;
    } else {
      assert (a + b)[1..] == a[1..] + b;
      ReplayAppend(Apply(w, a[0]), a[1..], b);
    }
  }

  /** The writer `out` stands for. */
  function WriterOf(out: Option<string>): Writer {
    if out.Some? then Recording(out.value) else Closed
  }

  predicate NoOpen(ops: seq<WriterOp>) {
    forall i :: 0 <= i < |ops| ==> !ops[i].Open?
  }

  /** The result of one frame: the new variables and the writer calls made. */
  datatype Tick = Tick(next: Rec, ops: seq<WriterOp>)

  /** True when a frame opens a new clip: seeded, not occupied, and some contour is large enough. */
  predicate Opens(s: Rec, f: Frame, cfg: RecordConfig) {
    s.seeded && s.text != Occupied && AnyLarge(f.areas, cfg.minArea)
  }

  /** The file name of the clip a frame opens. */
  function ClipPath(f: Frame, cfg: RecordConfig): string {
    GetPath(cfg.basepath, f.stampText, cfg.ext)
  }

  /** The writer calls of a clip started while `out` may still hold a writer. */
  function OpenOps(out: Option<string>, path: string): seq<WriterOp> {
    (if out.Some? then [Release] else []) + [Open(path)]
  }

  /** The contour loop: the first large contour of an unoccupied room starts a clip. */
  function Scan(s: Rec, f: Frame, cfg: RecordConfig): Tick {
    if s.text != Occupied && AnyLarge(f.areas, cfg.minArea) then
      Tick(s.(text := Occupied, videoStart := Some(f.clock), out := Some(ClipPath(f, cfg))), OpenOps(s.out, ClipPath(f, cfg)))
    else Tick(s, [])
  }

  /** The rest of the loop body: the window test, the write, and the return to Unoccupied. */
  function Settle(s: Rec, f: Frame, cfg: RecordConfig): Tick {
    var inWindow := if s.videoStart.Some? then f.stamp - s.videoStart.value < cfg.minimumVideoLength else s.inWindow;
    var text := if f.areas == [] && !inWindow then Unoccupied else s.text;
    var start := if inWindow then s.videoStart else None;
    Tick(s.(text := text, videoStart := start, inWindow := inWindow), if s.text == Occupied then [Write(f.stamp)] else [])
  }

  /** One pass of the loop body for one frame. */
  function Step(s: Rec, f: Frame, cfg: RecordConfig): (t: Tick)
    // the first frame only seeds the background; the writer is left as it was
    ensures !s.seeded ==> t == Tick(Rec(true, Unoccupied, None, false, s.out), [])
    // the background, once seeded, is never reset
    ensures s.seeded ==> t.next.seeded
    ensures Inv(s) ==> Inv(t.next)
    // a new clip is started exactly when a large contour shows up while unoccupied, replacing any old writer
    ensures Opens(s, f, cfg) ==>
      && t.next.text == Occupied
      && t.next.out == Some(ClipPath(f, cfg))
      && t.ops == OpenOps(s.out, ClipPath(f, cfg)) + [Write(f.stamp)]
      && t.next.videoStart == (if f.stamp - f.clock < cfg.minimumVideoLength then Some(f.clock) else None)
    ensures !Opens(s, f, cfg) ==>
      && t.next.out == s.out
      && t.ops == (if s.seeded && s.text == Occupied then [Write(f.stamp)] else [])
    // inside the window nothing but a write happens: no second clip, same file, same start
    ensures Inv(s) && s.seeded && s.videoStart.Some? && f.stamp - s.videoStart.value < cfg.minimumVideoLength ==>
      t.next == s && t.ops == [Write(f.stamp)]
    // outside the window, a frame that opens no clip leaves no window open
    ensures Inv(s) && s.seeded && !Opens(s, f, cfg)
            && !(s.videoStart.Some? && f.stamp - s.videoStart.value < cfg.minimumVideoLength) ==>
      t.next.videoStart == None && !t.next.inWindow
    // the room becomes unoccupied only on a frame without contours after the window
    ensures s.seeded && s.text == Occupied && t.next.text == Unoccupied ==> f.areas == [] && !t.next.inWindow && t.next.videoStart == None
    ensures Inv(s) && s.seeded && s.text == Occupied && f.areas == []
            && (s.videoStart.None? || f.stamp - s.videoStart.value >= cfg.minimumVideoLength) ==>
      t.next.text == Unoccupied
    ensures s.seeded && s.text == Unoccupied && t.next.text == Occupied ==> AnyLarge(f.areas, cfg.minArea)
  {
    if !s.seeded then Tick(Rec(true, Unoccupied, None, false, s.out), [])
    else
      var a := Scan(s, f, cfg);
      var b := Settle(a.next, f, cfg);
      Tick(b.next, a.ops + b.ops)
  }

  /** Replaying one frame's writer calls on the writer of the old state gives the writer of the new one. */
  lemma StepDiscipline(s: Rec, f: Frame, cfg: RecordConfig)
    requires Inv(s)
    ensures Replay(WriterOf(s.out), Step(s, f, cfg).ops) == WriterOf(Step(s, f, cfg).next.out)
  {
    var t := Step(s, f, cfg);
    if Opens(s, f, cfg) {
      var p := ClipPath(f, cfg);
      if s.out.Some? {
        assert t.ops == [Release] + ([Open(p)] + [Write(f.stamp)]);
        ReplayAppend(WriterOf(s.out), [Release], [Open(p)] + [Write(f.stamp)]);
        ReplayAppend(Closed, [Open(p)], [Write(f.stamp)]);
      } else {
        assert t.ops == [Open(p)] + [Write(f.stamp)];
        ReplayAppend(Closed, [Open(p)], [Write(f.stamp)]);
      }
    }
  }

  /** The frames of a run, processed one after the other. */
  function Run(s: Rec, frames: seq<Frame>, cfg: RecordConfig): Tick
    decreases |frames|
  {
    if frames == [] then Tick(s, [])
    else
      var p := Run(s, frames[..|frames| - 1], cfg);
      var t := Step(p.next, frames[|frames| - 1], cfg);
      Tick(t.next, p.ops + t.ops)
  }

  /** Over any run the invariant holds and the writer calls never misuse a writer. */
  lemma {:induction false} RunDiscipline(s: Rec, frames: seq<Frame>, cfg: RecordConfig)
    requires Inv(s)
    ensures Inv(Run(s, frames, cfg).next)
    ensures Replay(WriterOf(s.out), Run(s, frames, cfg).ops) == WriterOf(Run(s, frames, cfg).next.out)
    decreases |frames|
  {
    if frames != [] {
      var p := Run(s, frames[..|frames| - 1], cfg);
      RunDiscipline(s, frames[..|frames| - 1], cfg);
      StepDiscipline(p.next, frames[|frames| - 1], cfg);
      ReplayAppend(WriterOf(s.out), p.ops, Step(p.next, frames[|frames| - 1], cfg).ops);
    }
  }

  /** The calls after the loop: the open writer, if any, is released. */
  function FinishOps(out: Option<string>): seq<WriterOp> {
    if out.Some? then [Release] else []
  }

  /** Every clip started during a run is released by the end of main, and the discipline is never broken. */
  lemma AllClipsReleased(frames: seq<Frame>, cfg: RecordConfig)
    ensures var r := Run(Initial, frames, cfg);
      Replay(Closed, r.ops + FinishOps(r.next.out)) == Closed
  {
    var r := Run(Initial, frames, cfg);
    RunDiscipline(Initial, frames, cfg);
    ReplayAppend(Closed, r.ops, FinishOps(r.next.out));
  }

  /** The writes of a run in which every frame is appended to the open clip. */
  function WritesOf(frames: seq<Frame>): (ops: seq<WriterOp>)
    ensures |ops| == |frames|
    ensures forall i :: 0 <= i < |frames| ==> ops[i] == Write(frames[i].stamp)
    decreases |frames|
  {
    if frames == [] then [] else WritesOf(frames[..|frames| - 1]) + [Write(frames[|frames| - 1].stamp)]
  }

  /**
   * Debounce: while every frame falls inside the window started at `v`, the
   * clip stays open on the same file whatever the contours, no clip is
   * started, and every frame is written to it.
   */
  lemma {:induction false} WindowHoldsClip(s: Rec, frames: seq<Frame>, cfg: RecordConfig, v: int)
    requires Inv(s) && s.seeded && s.videoStart == Some(v)
    requires forall i :: 0 <= i < |frames| ==> frames[i].stamp - v < cfg.minimumVideoLength
    ensures Run(s, frames, cfg) == Tick(s, WritesOf(frames))
    decreases |frames|
  {
    if frames != [] {
      var init := frames[..|frames| - 1];
      WindowHoldsClip(s, init, cfg, v);
      assert WritesOf(frames) == WritesOf(init) + [Write(frames[|frames| - 1].stamp)];
    }
  }

  /**
   * Persistent motion: once occupied, a room whose frames all have contours
   * (of any size) stays occupied on the same clip, without bound.
   */
  lemma {:induction false} MotionKeepsClip(s: Rec, frames: seq<Frame>, cfg: RecordConfig)
    requires Inv(s) && s.seeded && s.text == Occupied
    requires forall i :: 0 <= i < |frames| ==> frames[i].areas != []
    ensures Inv(Run(s, frames, cfg).next)
    ensures Run(s, frames, cfg).next.text == Occupied && Run(s, frames, cfg).next.out == s.out
    ensures Run(s, frames, cfg).ops == WritesOf(frames)
    decreases |frames|
  {
    if frames != [] {
      var init := frames[..|frames| - 1];
      MotionKeepsClip(s, init, cfg);
      assert WritesOf(frames) == WritesOf(init) + [Write(frames[|frames| - 1].stamp)];
    }
  }

  /** Running one more frame is one more Step. */
  lemma RunSnoc(s: Rec, frames: seq<Frame>, f: Frame, cfg: RecordConfig)
    ensures var p := Run(s, frames, cfg);
      Run(s, frames + [f], cfg) == Tick(Step(p.next, f, cfg).next, p.ops + Step(p.next, f, cfg).ops)
  {
    assert (frames + [f])[..|frames|] == frames;
  }

  /** Running the first `i + 1` frames is running the first `i` and then frame `i`, seen after a prefix `pre` of earlier calls. */
  lemma RunPrefixStep(s: Rec, frames: seq<Frame>, i: nat, pre: seq<WriterOp>, cfg: RecordConfig)
    requires i < |frames|
    ensures var p := Run(s, frames[..i], cfg);
      && Run(s, frames[..i + 1], cfg).next == Step(p.next, frames[i], cfg).next
      && Run(s, frames[..i + 1], cfg).ops == p.ops + Step(p.next, frames[i], cfg).ops
      && pre + Run(s, frames[..i + 1], cfg).ops == (pre + p.ops) + Step(p.next, frames[i], cfg).ops
  {
    var q := frames[..i + 1];
    assert q[..|q| - 1] == frames[..i];
    var p := Run(s, frames[..i], cfg);
    var t := Step(p.next, frames[i], cfg);
    assert Run(s, q, cfg) == Tick(t.next, p.ops + t.ops);
    AppendAssoc(pre, p.ops, t.ops);
  }

  lemma AppendAssoc<T>(a: seq<T>, b: seq<T>, c: seq<T>)
    ensures a + (b + c) == (a + b) + c
  {
  }

  /** No motion, motion of area 50 over a minimum of 32 twice, then no motion twice, one frame a second (milliseconds). */
  function Demo(lag: int): seq<Frame> {
    [Frame(0, "t0", lag, []), Frame(1000, "t1", 1000 + lag, [50.0]), Frame(2000, "t2", 2000 + lag, [50.0]),
     Frame(3000, "t3", 3000 + lag, []), Frame(4000, "t4", 4000 + lag, [])]
  }

  const DemoConfig := RecordConfig(32.0, 2000, "/clips", ".avi")

  /** The variables while the demo clip is open, with `video_start` read `lag` after the stamp of index 1. */
  function DemoClip(lag: int): Rec {
    Rec(true, Occupied, Some(1000 + lag), true, Some("/clips/t1.avi"))
  }

  /** The first demo frame only seeds the background. */
  lemma DemoSeeds(lag: int)
    ensures Run(Initial, Demo(lag)[..1], DemoConfig) == Tick(Rec(true, Unoccupied, None, false, None), [])
  {
    assert Demo(lag)[..0] == [];
    RunPrefixStep(Initial, Demo(lag), 0, [], DemoConfig);
  }

  /** Over the first two demo frames the background is seeded and the clip of index 1 is opened and written. */
  lemma DemoOpens(lag: int)
    requires 0 <= lag < 1000
    ensures Run(Initial, Demo(lag)[..2], DemoConfig) == Tick(DemoClip(lag), [Open("/clips/t1.avi"), Write(1000)])
  {
    var fs := Demo(lag);
    DemoSeeds(lag);
    assert AnyLarge(fs[1].areas, DemoConfig.minArea) by { assert fs[1].areas[0] >= 32.0; }
    assert ClipPath(fs[1], DemoConfig) == "/clips/t1.avi";
    RunPrefixStep(Initial, fs, 1, [], DemoConfig);
  }

  /** A demo frame inside the window is only written to the open clip. */
  lemma DemoHolds(lag: int, i: nat, f: Frame, o: seq<WriterOp>)
    requires i < 5 && Demo(lag)[i] == f && f.stamp - (1000 + lag) < 2000
    requires Run(Initial, Demo(lag)[..i], DemoConfig) == Tick(DemoClip(lag), o)
    ensures Run(Initial, Demo(lag)[..i + 1], DemoConfig) == Tick(DemoClip(lag), o + [Write(f.stamp)])
  {
    RunPrefixStep(Initial, Demo(lag), i, [], DemoConfig);
  }

  /** A demo frame without contours after the window makes the room unoccupied, still written to the clip. */
  lemma DemoCloses(lag: int, i: nat, f: Frame, o: seq<WriterOp>)
    requires i < 5 && Demo(lag)[i] == f && f.areas == [] && f.stamp - (1000 + lag) >= 2000
    requires Run(Initial, Demo(lag)[..i], DemoConfig) == Tick(DemoClip(lag), o)
    ensures Run(Initial, Demo(lag)[..i + 1], DemoConfig)
      == Tick(Rec(true, Unoccupied, None, false, Some("/clips/t1.avi")), o + [Write(f.stamp)])
  {
    RunPrefixStep(Initial, Demo(lag), i, [], DemoConfig);
  }

  /**
   * When `video_start` is read after the frame's own time stamp, the clip
   * opens at index 1, stays occupied through index 3 and the room becomes
   * unoccupied at index 4; the writer stays open until main ends.
   */
  lemma DemoWithLag()
    ensures var fs := Demo(5);
      && Run(Initial, fs[..2], DemoConfig).next.text == Occupied
      && Run(Initial, fs[..3], DemoConfig).next.text == Occupied
      && Run(Initial, fs[..4], DemoConfig).next.text == Occupied
      && Run(Initial, fs, DemoConfig).next.text == Unoccupied
      && Run(Initial, fs, DemoConfig).next.out == Some("/clips/t1.avi")
      && Run(Initial, fs, DemoConfig).ops == [Open("/clips/t1.avi"), Write(1000), Write(2000), Write(3000), Write(4000)]
  {
    var o2 := [Open("/clips/t1.avi"), Write(1000)];
    assert o2 + [Write(2000)] + [Write(3000)] + [Write(4000)]
      == [Open("/clips/t1.avi"), Write(1000), Write(2000), Write(3000), Write(4000)];
    assert Demo(5)[..5] == Demo(5);
    DemoOpens(5);
    DemoHolds(5, 2, Frame(2000, "t2", 2005, [50.0]), o2);
    DemoHolds(5, 3, Frame(3000, "t3", 3005, []), o2 + [Write(2000)]);
    DemoCloses(5, 4, Frame(4000, "t4", 4005, []), o2 + [Write(2000)] + [Write(3000)]);
  }

  /**
   * When `video_start` equals the frame's time stamp, the window of 2000
   * has already run out at index 3 and the room becomes unoccupied there.
   */
  lemma DemoWithoutLag()
    ensures var fs := Demo(0);
      && Run(Initial, fs[..3], DemoConfig).next.text == Occupied
      && Run(Initial, fs[..4], DemoConfig).next.text == Unoccupied
  {
    var o2 := [Open("/clips/t1.avi"), Write(1000)];
    DemoOpens(0);
    DemoHolds(0, 2, Frame(2000, "t2", 2000, [50.0]), o2);
    DemoCloses(0, 3, Frame(3000, "t3", 3000, []), o2 + [Write(2000)]);
  }

  /** The loop of main over the frames the camera delivers. */
  class Recorder {
    const cfg: RecordConfig
    var seeded: bool
    var text: Label
    var videoStart: Option<int>
    var inWindow: bool
    /** the file of the VideoWriter `out` refers to, if any */
    var out: Option<string>
    /** every call made on VideoWriter objects so far */
    ghost var log: seq<WriterOp>

    function State(): Rec
      reads this
    {
      Rec(seeded, text, videoStart, inWindow, out)
    }

    ghost predicate Valid()
      reads this
    {
      Inv(State()) && Replay(Closed, log) == WriterOf(out)
    }

    constructor (cfg: RecordConfig)
      ensures Valid() && State() == Initial && log == [] && this.cfg == cfg
    {
      this.cfg := cfg;
      seeded := false;
      text := Unoccupied;
      videoStart := None;
      inWindow := false;
      out := None;
      log := [];
    }

    /** A large contour in an unoccupied room: mark it occupied, keep the clock, and replace the writer by one on the frame's file. */
    method StartClip(f: Frame)
      modifies this
      ensures text == Occupied && videoStart == Some(f.clock) && out == Some(ClipPath(f, cfg))
      ensures log == old(log) + OpenOps(old(out), ClipPath(f, cfg))
      ensures seeded == old(seeded) && inWindow == old(inWindow)
    {
      text := Occupied;
      videoStart := Some(f.clock);
      var filename := ClipPath(f, cfg);
      if out.Some? {
        log := log + [Release];
        out := None;
      } else {
        assert log == old(log) + [];
      }
      log := log + [Open(filename)];
      out := Some(filename);
    }

    /** The loop over the contours of a seeded frame: the first large one in an unoccupied room starts a clip named from the frame's stamp. */
    method ScanContours(f: Frame)
      requires seeded
      modifies this
      ensures State() == Scan(old(State()), f, cfg).next
      ensures log == old(log) + Scan(old(State()), f, cfg).ops
    {
      ghost var s0 := State();
      ghost var started := false;
      for i := 0 to |f.areas|
        invariant started == (s0.text != Occupied && AnyLarge(f.areas[..i], cfg.minArea))
        invariant text == (if started then Occupied else s0.text)
        invariant videoStart == (if started then Some(f.clock) else s0.videoStart)
        invariant out == (if started then Some(ClipPath(f, cfg)) else s0.out)
        invariant log == old(log) + (if started then OpenOps(s0.out, ClipPath(f, cfg)) else [])
        invariant seeded && inWindow == s0.inWindow
      {
        AnyLargeSnoc(f.areas, i, cfg.minArea);
        if f.areas[i] >= cfg.minArea && text != Occupied {
          assert !started && log == old(log) + [];
          StartClip(f);
          started := true;
        }
      }
      assert f.areas[..|f.areas|] == f.areas;
      if !started {
        assert log == old(log) + [];
      }
    }

    /** The loop body for one frame. */
    method ProcessFrame(f: Frame)
      requires Valid()
      modifies this
      ensures Valid()
      ensures State() == Step(old(State()), f, cfg).next
      ensures log == old(log) + Step(old(State()), f, cfg).ops
    {
      if !seeded {
        seeded := true;
        text := Unoccupied;
        videoStart := None;
        inWindow := false;
        assert log == old(log) + [];
        return;
      }
      ghost var s0 := State();
      ScanContours(f);
      ghost var a := Scan(s0, f, cfg);
      ghost var log1 := log;
      if videoStart.Some? {
        inWindow := f.stamp - videoStart.value < cfg.minimumVideoLength;
      }
      if text == Occupied {
        assert out.Some? by { assert Inv(s0); }
        log := log + [Write(f.stamp)];
      }
      if f.areas == [] && !inWindow {
        text := Unoccupied;
      }
      if !inWindow {
        videoStart := None;
      }
      ghost var b := Settle(a.next, f, cfg);
      assert State() == b.next;
      assert log == log1 + b.ops;
      AppendAssoc(old(log), a.ops, b.ops);
      StepDiscipline(s0, f, cfg);
      ReplayAppend(Closed, old(log), a.ops + b.ops);
    }

    /** After the loop: release the writer, if one is open. */
    method Finish()
      requires Valid()
      modifies this
      ensures out == None && log == old(log) + FinishOps(old(out))
      ensures Replay(Closed, log) == Closed
      ensures seeded == old(seeded) && text == old(text) && videoStart == old(videoStart) && inWindow == old(inWindow)
    {
      if out.Some? {
        log := log + [Release];
        ReplayAppend(Closed, old(log), [Release]);
      } else {
        assert log == old(log) + [];
      }
      out := None;
    }

    /** main from its first frame to its end: every frame in turn, then the writer released. */
    method RecordFrames(frames: seq<Frame>)
      requires Valid()
      modifies this
      ensures out == None && Replay(Closed, log) == Closed
      ensures var r := Run(old(State()), frames, cfg);
        log == old(log) + r.ops + FinishOps(r.next.out)
    {
      ghost var s0 := State();
      for i := 0 to |frames|
        invariant Valid()
        invariant State() == Run(s0, frames[..i], cfg).next
        invariant log == old(log) + Run(s0, frames[..i], cfg).ops
      {
        RunPrefixStep(s0, frames, i, old(log), cfg);
        ProcessFrame(frames[i]);
      }
      assert frames[..|frames|] == frames;
      Finish();
    }
  }
}
