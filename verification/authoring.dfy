/**
 * The region-authoring screen (`get_countries.py`): mouse clicks build an
 * in-progress polygon on the warped map, keys commit it under a typed name,
 * undo the last region or write the store to disk, and the store is loaded
 * from disk at start-up. One fingertip is hit-tested against the store on
 * every frame.
 */
module Authoring {
  import opened Wrappers
  import opened Geometry
  import opened Regions

  /**
   * The authoring state: the polygon being clicked, the region store, and
   * the number of commits made so far (the source's `counter`, which undo
   * does not decrease, so it is not the store length).
   */
  datatype Session = Session(current: seq<Point>, store: Store, commits: nat)

  /** The session the program starts with, over the store it loaded. */
  function Start(store: Store): (s: Session)
    ensures s.current == [] && s.store == store && s.commits == 0
  {
    Session([], store, 0)
  }

  /** A left click at `p` on the warped map. */
  function Click(s: Session, p: Point): (r: Session)
    ensures r.current == s.current + [p]
    ensures r.current[..|s.current|] == s.current && r.current[|s.current|] == p
    ensures r.store == s.store && r.commits == s.commits
  {
    s.(current := s.current + [p])
  }

  /**
   * The "s" key with the name typed at the prompt: a polygon of more than two
   * points becomes the newest region and the in-progress polygon restarts;
   * otherwise nothing happens (no prompt is shown). The name is not checked.
   */
  function Commit(s: Session, name: string): (r: Session)
    ensures |s.current| > 2 ==> && |r.store| == |s.store| + 1
                                 && r.store[..|s.store|] == s.store
                                 && r.store[|s.store|] == Region(s.current, name)
                                 && r.current == []
                                 && r.commits == s.commits + 1
    ensures |s.current| <= 2 ==> r == s
  {
    if |s.current| > 2 then
      Session([], s.store + [Region(s.current, name)], s.commits + 1)
    else
      s
  }

  /** The "d" key: drop the most recently added region, if there is one. */
  function Undo(s: Session): (r: Session)
    ensures |s.store| > 0 ==> && |r.store| == |s.store| - 1
                               && (forall i :: 0 <= i < |r.store| ==> r.store[i] == s.store[i])
                               && r.current == s.current && r.commits == s.commits
    ensures |s.store| == 0 ==> r == s
  {
    if |s.store| > 0 then s.(store := s.store[..|s.store| - 1]) else s
  }

  /** Committing a polygon and then undoing gives back the store as it was. */
  lemma CommitThenUndo(s: Session, name: string)
    requires |s.current| > 2
    ensures Undo(Commit(s, name)).store == s.store
    ensures Undo(Commit(s, name)).current == []
  {
    assert (s.store + [Region(s.current, name)])[..|s.store|] == s.store;
  }

  /** Undo on an empty store changes nothing, however often it is pressed. */
  lemma UndoEmptyIdle(s: Session)
    requires s.store == []
    ensures Undo(s) == s && Undo(Undo(s)) == s
  {
  }

  // ---------------------------------------------------------------------------
  // The store file

  /**
   * What the countries file holds when the program opens it: nothing at the
   * path; bytes on which unpickling runs out of input and raises end-of-file
   * (an empty file, or a pickle cut off right after its two-byte protocol
   * header or, for a store over 64 KiB, at a frame boundary); bytes that
   * fail to unpickle in any other way, a cut inside a frame included; or a
   * pickled store.
   */
  datatype StoreFile = Missing | Blank | Unreadable | Holds(store: Store)

  /** Unpickling failed with an error the loader does not catch, so the program stops. */
  datatype LoadError = UnpicklingError

  /**
   * Start-up load: the stored regions, or an empty store when the file is
   * missing or unpickling runs out of input. Any other unpickling failure
   * escapes the handlers.
   */
  function Load(file: StoreFile): (r: Result<Store, LoadError>)
    ensures file.Holds? ==> r == Success(file.store)
    ensures file.Missing? || file.Blank? ==> r == Success([])
    ensures r.Failure? <==> file.Unreadable?
  {
    match file
    case Missing => Success([])
    case Blank => Success([])
    case Unreadable => Failure(UnpicklingError)
    case Holds(store) => Success(store)
  }

  /** The "w" key: the file afterwards. A store with no regions is never written. */
  function Save(file: StoreFile, store: Store): (r: StoreFile)
    ensures |store| > 0 ==> r == Holds(store)
    ensures |store| == 0 ==> r == file
  {
    if |store| > 0 then Holds(store) else file
  }

  /** Saving a non-empty store and loading it back reproduces it exactly. */
  lemma SaveLoadRoundTrip(file: StoreFile, store: Store)
    requires |store| > 0
    ensures Load(Save(file, store)) == Success(store)
  {
  }

  /**
   * Saving an empty store does not write, so a later load returns whatever
   * the file held before: the regions deleted by undo come back.
   */
  lemma SaveEmptyKeepsOldFile(earlier: Store)
    requires |earlier| > 0
    ensures Load(Save(Holds(earlier), [])) == Success(earlier)
    ensures Load(Save(Holds(earlier), [])) != Success([])
  {
  }

  // ---------------------------------------------------------------------------
  // Key handling

  /** A key read by `waitKey` in one frame; `CommitKey` carries the name typed at the prompt. */
  datatype Key = CommitKey(name: string) | WriteKey | DeleteKey | QuitKey | OtherKey

  /** The authoring session together with the countries file on disk. */
  datatype AuthoringState = AuthoringState(session: Session, file: StoreFile)

  /** One frame's key handling; at most one of commit, write and delete fires. */
  function HandleKey(st: AuthoringState, key: Key): (r: AuthoringState)
    ensures key.CommitKey? ==> r == AuthoringState(Commit(st.session, key.name), st.file)
    ensures key.WriteKey? ==> r == AuthoringState(st.session, Save(st.file, st.session.store))
    ensures key.DeleteKey? ==> r == AuthoringState(Undo(st.session), st.file)
    ensures key.QuitKey? || key.OtherKey? ==> r == st
    ensures r.file != st.file ==> key.WriteKey? && |st.session.store| > 0
    ensures r.session.store != st.session.store ==> key.CommitKey? || key.DeleteKey?
  {
    match key
    case CommitKey(name) => st.(session := Commit(st.session, name))
    case WriteKey => st.(file := Save(st.file, st.session.store))
    case DeleteKey => st.(session := Undo(st.session))
    case QuitKey => st
    case OtherKey => st
  }

  /** Key handling never lets a polygon of two or fewer points into the store. */
  lemma HandleKeyKeepsWellFormed(st: AuthoringState, key: Key)
    requires WellFormed(st.session.store)
    ensures WellFormed(HandleKey(st, key).session.store)
  {
    var r := HandleKey(st, key);
    if key.CommitKey? && |st.session.current| > 2 {
      assert r.session.store == st.session.store + [Region(st.session.current, key.name)];
    }
  }

  /** With two or fewer points clicked, "s" leaves the store and the polygon as they were. */
  lemma ShortPolygonIgnored(st: AuthoringState, name: string)
    requires |st.session.current| <= 2
    ensures HandleKey(st, CommitKey(name)) == st
  {
  }

  /** Three regions, two undos: only the first remains. */
  lemma UndoTwiceScenario(a: Region, b: Region, c: Region, current: seq<Point>, commits: nat)
    ensures Undo(Undo(Session(current, [a, b, c], commits))).store == [a]
  {
    assert [a, b, c][..2] == [a, b];
    assert [a, b][..1] == [a];
  }

  // ---------------------------------------------------------------------------
  // Whole sessions

  /** An input the authoring loop reacts to: a mouse click on the map or a key. */
  datatype Event = MouseClick(p: Point) | Press(key: Key)

  function Step(st: AuthoringState, e: Event): AuthoringState
  {
    match e
    case MouseClick(p) => st.(session := Click(st.session, p))
    case Press(key) => HandleKey(st, key)
  }

  /**
   * The state after the events, oldest first. The program leaves its loop on
   * the quit key, so in a real session no event follows a `QuitKey`; the
   * lemmas below hold for every event sequence, including those.
   */
  function Run(st: AuthoringState, events: seq<Event>): AuthoringState
  {
    if |events| == 0 then st
    else Step(Run(st, events[..|events| - 1]), events[|events| - 1])
  }

  /**
   * Over any sequence of clicks and keys, every stored region keeps more
   * than two vertices, and the store never outgrows the loaded regions plus
   * the commits made.
   */
  lemma {:induction false} RunKeepsInvariant(st: AuthoringState, events: seq<Event>)
    requires WellFormed(st.session.store)
    ensures WellFormed(Run(st, events).session.store)
    ensures |Run(st, events).session.store| + st.session.commits <= |st.session.store| + Run(st, events).session.commits
  {
    if |events| > 0 {
      var prev := Run(st, events[..|events| - 1]);
      RunKeepsInvariant(st, events[..|events| - 1]);
      var e := events[|events| - 1];
      if e.Press? {
        HandleKeyKeepsWellFormed(prev, e.key);
      }
    }
  }

  /**
   * A session started from whatever the countries file loaded keeps its
   * regions well formed over any later clicks and keys, provided the loaded
   * regions were, and holds at most the loaded regions plus the commits made.
   */
  lemma LoadedSessionKeepsInvariant(file: StoreFile, events: seq<Event>)
    requires Load(file).Success? && WellFormed(Load(file).value)
    ensures WellFormed(Run(AuthoringState(Start(Load(file).value), file), events).session.store)
    ensures |Run(AuthoringState(Start(Load(file).value), file), events).session.store|
            <= |Load(file).value| + Run(AuthoringState(Start(Load(file).value), file), events).session.commits
  {
    RunKeepsInvariant(AuthoringState(Start(Load(file).value), file), events);
  }

  // ---------------------------------------------------------------------------
  // Fingertip hit-test on the authoring screen

  /**
   * The regions reported for this frame: only the first detected hand is
   * used; its fingertip is mapped onto the map by `warp` (the perspective
   * transform followed by integer truncation, not modelled) and hit-tested.
   */
  function FingertipRegions(store: Store, hands: seq<Point>, warp: Point -> Point): (hits: seq<Region>)
    ensures |hits| <= |store|
    ensures |hands| == 0 ==> hits == []
    ensures |hands| > 0 ==> hits == HitTest(store, warp(hands[0]))
    ensures forall k :: 0 <= k < |hits| ==> hits[k] in store && Contains(hits[k].polygon, warp(hands[0]))
  {
    if |hands| == 0 then [] else HitTest(store, warp(hands[0]))
  }
}
