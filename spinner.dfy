/**
 * The busy indicator (assets/js/spinner.js): a braille glyph advanced by an 80 ms interval.
 * Intervals are modelled as the set of ids still running; the browser calls Tick for each
 * of them, in any order. The pure functions Started, Stopped and Ticked say what `start`,
 * `stop` and the interval callback do to the state, and the class Spinner performs them.
 */
module Spinner {
  import opened Wrappers

  /** The ten braille frames, in order. */
  const Frames: seq<char> := ['\U{280B}', '\U{2819}', '\U{2839}', '\U{2838}', '\U{283C}',
                              '\U{2834}', '\U{2826}', '\U{2827}', '\U{2807}', '\U{280F}']

  /**
   * Everything the script keeps: whether the indicator is displayed, the glyph shown,
   * `frameIndex`, `timerId` (browser interval ids are positive, so None stands for `null`),
   * the intervals started and not cleared, and the id the browser hands out next.
   */
  datatype State = State(shown: bool, glyph: char, frameIndex: nat, timerId: Option<nat>,
                         running: set<nat>, nextId: nat)

  /** The frame index is a valid index, and `timerId` names a running interval the browser has issued. */
  predicate Inv(st: State) {
    && st.frameIndex < |Frames|
    && 0 < st.nextId
    && (forall id :: id in st.running ==> 0 < id < st.nextId)
    && (st.timerId.Some? ==> st.timerId.value in st.running)
  }

  /**
   * `start()`: shows the indicator, resets the frame and starts a new interval. The glyph
   * is not written, and an interval already running is not cleared: only its id is lost.
   */
  function Started(st: State): (r: State)
    ensures r.shown && r.frameIndex == 0 && r.glyph == st.glyph && r.timerId == Some(st.nextId)
    ensures r.running == st.running + {st.nextId}
  {
    st.(shown := true, frameIndex := 0, timerId := Some(st.nextId),
        running := st.running + {st.nextId}, nextId := st.nextId + 1)
  }

  /** `stop()`: clears and forgets the interval `timerId` names, if any, and always hides the indicator. */
  function Stopped(st: State): (r: State)
    ensures !r.shown && r.timerId.None? && r.frameIndex == st.frameIndex && r.glyph == st.glyph
    ensures r.running <= st.running && (st.timerId.Some? ==> st.timerId.value !in r.running)
    ensures forall id :: id in st.running && st.timerId != Some(id) ==> id in r.running
  {
    if st.timerId.Some? then st.(shown := false, timerId := None, running := st.running - {st.timerId.value})
    else st.(shown := false)
  }

  /** One run of an interval callback: the next frame, and its glyph displayed. */
  function Ticked(st: State): (r: State)
    requires st.frameIndex < |Frames|
    ensures r.frameIndex < |Frames| && r.glyph == Frames[r.frameIndex]
    ensures r.frameIndex == if st.frameIndex == |Frames| - 1 then 0 else st.frameIndex + 1
    ensures r.(frameIndex := st.frameIndex, glyph := st.glyph) == st
  {
    var i := (st.frameIndex + 1) % |Frames|;
    st.(frameIndex := i, glyph := Frames[i])
  }

  /** Each operation keeps the invariant; in particular the frame index stays in [0, 10). */
  lemma StepsKeepInv(st: State)
    requires Inv(st)
    ensures Inv(Started(st)) && Inv(Stopped(st)) && Inv(Ticked(st))
  {
  }

  /** The first tick after a start shows the second frame, whatever was displayed before. */
  lemma FirstTickShowsSecondFrame(st: State)
    ensures Ticked(Started(st)).glyph == Frames[1] && Started(st).glyph == st.glyph
  {
  }

  /** A stop right after a start leaves the same intervals running as before the start. */
  lemma StartThenStop(st: State)
    requires Inv(st)
    ensures var s := Stopped(Started(st));
      s.running == st.running && !s.shown && s.timerId.None?
  {
    assert st.nextId !in st.running;
  }

  /**
   * Two starts and one stop leave the first start's interval running, with no id left to
   * clear it by: the leak that `start` without `clearInterval` allows.
   */
  lemma DoubleStartLeaks(st: State)
    requires Inv(st)
    ensures var s := Stopped(Started(Started(st)));
      st.nextId in s.running && st.nextId !in st.running && s.timerId.None? &&
      Inv(s) && Ticked(s).frameIndex == (s.frameIndex + 1) % |Frames|
  {
    assert st.nextId < st.nextId + 1;
  }

  /** A stop with no interval set only hides the indicator. */
  lemma StopWithoutTimer(st: State)
    requires st.timerId.None?
    ensures Stopped(st) == st.(shown := false)
  {
  }

  /** The `#ai-spinner` element and the script's variables. */
  class Spinner {
    var shown: bool
    /** The text of `.ai-spinner__char`. */
    var glyph: char
    var frameIndex: nat
    var timerId: Option<nat>
    var running: set<nat>
    var nextId: nat

    function Snapshot(): State
      reads this
    {
      State(shown, glyph, frameIndex, timerId, running, nextId)
    }

    predicate Valid()
      reads this
    {
      Inv(Snapshot())
    }

    /** The element as the page renders it, displayed or not and showing `glyph`; the script sets frame 0 and no interval. */
    constructor(shown: bool, glyph: char)
      ensures Valid()
      ensures Snapshot() == State(shown, glyph, 0, None, {}, 1)
    {
      this.shown := shown;
      this.glyph := glyph;
      frameIndex := 0;
      timerId := None;
      running := {};
      nextId := 1;
    }

    method Start()
      requires Valid()
      modifies this
      ensures Valid()
      ensures Snapshot() == Started(old(Snapshot()))
    {
      shown := true;
      frameIndex := 0;
      timerId := Some(nextId);
      running := running + {nextId};
      nextId := nextId + 1;
    }

    method Stop()
      requires Valid()
      modifies this
      ensures Valid()
      ensures Snapshot() == Stopped(old(Snapshot()))
    {
      if timerId.Some? {
        running := running - {timerId.value};
        timerId := None;
      }
      shown := false;
    }

    /** The interval callback of `id`, which must still be running. */
    method Tick(id: nat)
      requires Valid() && id in running
      modifies this
      ensures Valid()
      ensures Snapshot() == Ticked(old(Snapshot()))
    {
      frameIndex := (frameIndex + 1) % |Frames|;
      glyph := Frames[frameIndex];
    }
  }
}
