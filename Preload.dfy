/** The image preloader. One request is issued per entry of the code → path
    table; each request settles with exactly one callback, `onload` or
    `onerror`. Both callbacks advance a shared counter, only `onload` records
    the image, and the aggregate "done" signal fires once the counter equals
    the number of requests (or at once when there are none).

    The callbacks run one at a time on the page's event loop, so an
    execution is a sequence of events fed to the loader in arrival order. */
module Preload {

  /** An image object, identified by the path its `src` was set to. */
  datatype Image = Image(src: string)

  /** One settled request, for the piece code it was issued for. */
  datatype Event = Load(code: string) | Error(code: string)

  /** What the loader has recorded: the loaded images by code, the number of
      settled requests, and whether the "done" signal has fired. */
  datatype LoaderState = LoaderState(loaded: map<string, Image>, count: nat, resolved: bool)

  /** Before any request settles. A table with no entries is done at once. */
  function Start(sources: map<string, string>): LoaderState {
    LoaderState(map[], 0, |sources| == 0)
  }

  /** Every event is for a code that a request was issued for. */
  predicate EventsFor(sources: map<string, string>, events: seq<Event>) {
    forall i :: 0 <= i < |events| ==> events[i].code in sources
  }

  /** The effect of one callback. */
  function Step(sources: map<string, string>, st: LoaderState, ev: Event): LoaderState
    requires ev.code in sources
  {
    var n := st.count + 1;
    var loaded := if ev.Load? then st.loaded[ev.code := Image(sources[ev.code])] else st.loaded;
    LoaderState(loaded, n, st.resolved || n == |sources|)
  }

  /** The effect of a run of callbacks, in order. */
  function Replay(sources: map<string, string>, st: LoaderState, events: seq<Event>): LoaderState
    requires EventsFor(sources, events)
    decreases |events|
  {
    if events == [] then st
    else Step(sources, Replay(sources, st, events[..|events| - 1]), events[|events| - 1])
  }

  /** The codes whose `onload` fired in a run. */
  function LoadedCodes(events: seq<Event>): set<string> {
    set i | 0 <= i < |events| && events[i].Load? :: events[i].code
  }

  /** The loaded-image map a run should leave: each code of the table whose
      `onload` fired, with the image made from its own path. */
  function LoadedAfter(sources: map<string, string>, events: seq<Event>): map<string, Image> {
    map c | c in LoadedCodes(events) && c in sources :: Image(sources[c])
  }

  /** The codes that received any callback in a run. */
  function SettledCodes(events: seq<Event>): set<string> {
    set i | 0 <= i < |events| :: events[i].code
  }

  /** Each request settles exactly once: every code of the table receives
      one callback and no code receives two. */
  predicate OneEventEach(sources: map<string, string>, events: seq<Event>) {
    && EventsFor(sources, events)
    && (forall c :: c in sources ==> c in SettledCodes(events))
    && (forall i, j :: 0 <= i < j < |events| ==> events[i].code != events[j].code)
  }

  /** Every callback, load or error, raises the counter by exactly one. */
  lemma {:induction false} ReplayCount(sources: map<string, string>, st: LoaderState, events: seq<Event>)
    requires EventsFor(sources, events)
    ensures Replay(sources, st, events).count == st.count + |events|
  {
    if events != [] {
      ReplayCount(sources, st, events[..|events| - 1]);
    }
  }

  /** From the start, the loaded map holds exactly the codes whose `onload`
      fired, each with the image made from its own path. */
  lemma {:induction false} ReplayLoaded(sources: map<string, string>, events: seq<Event>)
    requires EventsFor(sources, events)
    ensures Replay(sources, Start(sources), events).loaded == LoadedAfter(sources, events)
  {
    if events != [] {
      var init := events[..|events| - 1];
      var last := events[|events| - 1];
      ReplayLoaded(sources, init);
      assert LoadedCodes(events) == LoadedCodes(init) + (if last.Load? then {last.code} else {}) by {
        forall c | c in LoadedCodes(events)
          ensures c in LoadedCodes(init) + (if last.Load? then {last.code} else {})
        {
          var i :| 0 <= i < |events| && events[i].Load? && events[i].code == c;
          if i < |events| - 1 {
            assert init[i] == events[i];
          }
        }
        forall c | c in LoadedCodes(init)
          ensures c in LoadedCodes(events)
        {
          var i :| 0 <= i < |init| && init[i].Load? && init[i].code == c;
          assert events[i] == init[i];
        }
      }
    }
  }

  /** From the start, the "done" signal has fired exactly when there were no
      requests or at least as many callbacks as requests. */
  lemma {:induction false} ReplayResolved(sources: map<string, string>, events: seq<Event>)
    requires EventsFor(sources, events)
    ensures Replay(sources, Start(sources), events).resolved <==> (|sources| == 0 || |sources| <= |events|)
  {
    if events != [] {
      var init := events[..|events| - 1];
      ReplayResolved(sources, init);
      ReplayCount(sources, Start(sources), init);
    }
  }

  /** A run in which no code is repeated touches as many codes as it has events. */
  lemma {:induction false} DistinctCodes(events: seq<Event>)
    requires forall i, j :: 0 <= i < j < |events| ==> events[i].code != events[j].code
    ensures |SettledCodes(events)| == |events|
  {
    if events != [] {
      var init := events[..|events| - 1];
      var last := events[|events| - 1];
      DistinctCodes(init);
      assert SettledCodes(events) == SettledCodes(init) + {last.code} by {
        forall c | c in SettledCodes(events)
          ensures c in SettledCodes(init) + {last.code}
        {
          var i :| 0 <= i < |events| && events[i].code == c;
          if i < |events| - 1 {
            assert init[i] == events[i];
          }
        }
        forall c | c in SettledCodes(init)
          ensures c in SettledCodes(events)
        {
          var i :| 0 <= i < |init| && init[i].code == c;
          assert events[i] == init[i];
        }
      }
      forall i | 0 <= i < |init|
        ensures init[i].code != last.code
      {
        assert init[i] == events[i];
      }
    }
  }

  /** When every request settles exactly once, the run has one event per
      table entry: the counter ends equal to the total. */
  lemma OneEventEachLength(sources: map<string, string>, events: seq<Event>)
    requires OneEventEach(sources, events)
    ensures |events| == |sources|
  {
    DistinctCodes(events);
    assert SettledCodes(events) == sources.Keys;
  }

  /** When every request settles exactly once: the counter never exceeds the
      total, the "done" signal has not fired before the last callback and has
      fired after it, and the loaded map holds exactly the codes of the table
      whose `onload` fired. */
  lemma CompleteRun(sources: map<string, string>, events: seq<Event>)
    requires OneEventEach(sources, events)
    ensures forall k :: 0 <= k <= |events| ==> Replay(sources, Start(sources), events[..k]).count <= |sources|
    ensures forall k :: 0 <= k < |events| ==> !Replay(sources, Start(sources), events[..k]).resolved
    ensures Replay(sources, Start(sources), events).resolved
    ensures Replay(sources, Start(sources), events).count == |sources|
    ensures Replay(sources, Start(sources), events).loaded.Keys
         == set c | c in sources && c in LoadedCodes(events)
  {
    OneEventEachLength(sources, events);
    forall k | 0 <= k <= |events|
      ensures Replay(sources, Start(sources), events[..k]).count == k
      ensures k < |events| ==> !Replay(sources, Start(sources), events[..k]).resolved
    {
      ReplayCount(sources, Start(sources), events[..k]);
      ReplayResolved(sources, events[..k]);
    }
    assert events[..|events|] == events;
    ReplayCount(sources, Start(sources), events);
    ReplayResolved(sources, events);
    ReplayLoaded(sources, events);
  }

  /** The loader object: the image map and counter that the callbacks update,
      and the "done" signal. */
  class ImageLoader {
    const pieceImages: map<string, string>
    const totalImagesToLoad: nat
    var loadedImages: map<string, Image>
    var imagesLoadedCount: nat
    var resolved: bool

    /** The total is the number of entries of the table. */
    ghost predicate Valid()
      reads this
    {
      totalImagesToLoad == |pieceImages|
    }

    /** The recorded state as a value. */
    function State(): LoaderState
      reads this
    {
      LoaderState(loadedImages, imagesLoadedCount, resolved)
    }

    /** Issues the requests: nothing is loaded or counted yet, and a table
        with no entries signals "done" at once. */
    constructor (pieceImages: map<string, string>)
      ensures Valid() && this.pieceImages == pieceImages
      ensures State() == Start(pieceImages)
    {
      this.pieceImages := pieceImages;
      totalImagesToLoad := |pieceImages|;
      loadedImages := map[];
      imagesLoadedCount := 0;
      resolved := false;
      new;
      if totalImagesToLoad == 0 {
        resolved := true;
      }
    }

    /** `onload` for `code`: record the image, count it, signal "done" when
        the count reaches the total. */
    method OnLoad(code: string)
      requires Valid() && code in pieceImages
      modifies this
      ensures Valid()
      ensures imagesLoadedCount == old(imagesLoadedCount) + 1
      ensures loadedImages == old(loadedImages)[code := Image(pieceImages[code])]
      ensures resolved == (old(resolved) || imagesLoadedCount == totalImagesToLoad)
      ensures State() == Step(pieceImages, old(State()), Load(code))
    {
      loadedImages := loadedImages[code := Image(pieceImages[code])];
      imagesLoadedCount := imagesLoadedCount + 1;
      if imagesLoadedCount == totalImagesToLoad {
        resolved := true;
      }
    }

    /** `onerror` for `code`: count it without recording an image, signal
        "done" when the count reaches the total. */
    method OnError(code: string)
      requires Valid() && code in pieceImages
      modifies this
      ensures Valid()
      ensures imagesLoadedCount == old(imagesLoadedCount) + 1
      ensures loadedImages == old(loadedImages)
      ensures resolved == (old(resolved) || imagesLoadedCount == totalImagesToLoad)
      ensures State() == Step(pieceImages, old(State()), Error(code))
    {
      imagesLoadedCount := imagesLoadedCount + 1;
      if imagesLoadedCount == totalImagesToLoad {
        resolved := true;
      }
    }

    /** Runs the callback that an event stands for. */
    method Handle(ev: Event)
      requires Valid() && ev.code in pieceImages
      modifies this
      ensures Valid()
      ensures State() == Step(pieceImages, old(State()), ev)
    {
      match ev
      case Load(code) => OnLoad(code);
      case Error(code) => OnError(code);
    }

    /** Runs the callbacks of a run in arrival order. */
    method Run(events: seq<Event>)
      requires Valid() && EventsFor(pieceImages, events)
      modifies this
      ensures Valid()
      ensures State() == Replay(pieceImages, old(State()), events)
    {
      ghost var st0 := State();
      var i := 0;
      while i < |events|
        invariant 0 <= i <= |events|
        invariant Valid()
        invariant State() == Replay(pieceImages, st0, events[..i])
      {
        Handle(events[i]);
        assert events[..i + 1][..i] == events[..i];
        i := i + 1;
      }
      assert events[..|events|] == events;
    }
  }
}
