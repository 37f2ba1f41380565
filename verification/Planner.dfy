/**
 The planner of src/indexer/process-scripts/prediction-set-parser-planner.ts: one parser process per
 market that wants one. A child that is stopped is only signalled; it exits some time later, and its
 exit handler speaks about its market, not about itself.

 Children are numbered in the order in which they are spawned.
 */
module Planner {

  /** `running` is the planner's map; `alive` the children that have not exited, with their market;
      `signalled` those that were told to stop. */
  datatype State = State(running: map<nat, nat>, alive: map<nat, nat>, signalled: set<nat>, spawned: nat)

  function Start(s: State, id: nat): State {
    if id in s.running then s
    else State(s.running[id := s.spawned], s.alive[s.spawned := id], s.signalled, s.spawned + 1)
  }

  function Stop(s: State, id: nat): State {
    if id !in s.running then s
    else s.(running := s.running - {id}, signalled := s.signalled + {s.running[id]})
  }

  /** A child exits. Whatever is tracked for its market is dropped, and unless its code was zero the
      market is started again. */
  function Exit(s: State, child: nat, code: int): State {
    if child !in s.alive then s
    else
      var id := s.alive[child];
      var t := s.(alive := s.alive - {child}, running := s.running - {id});
      if code != 0 then Start(t, id) else t
  }

  function StartAll(s: State, ids: seq<nat>): State {
    if |ids| == 0 then s else Start(StartAll(s, ids[..|ids| - 1]), ids[|ids| - 1])
  }

  function Unwanted(s: State, ids: seq<nat>): set<nat> {
    set id | id in s.running && id !in ids
  }

  function StopOthers(s: State, ids: seq<nat>): State {
    s.(running := s.running - Unwanted(s, ids),
       signalled := s.signalled + set id | id in Unwanted(s, ids) :: s.running[id])
  }

  function Tick(s: State, ids: seq<nat>): State {
    StopOthers(StartAll(s, ids), ids)
  }

  class ParserPlanner {
    var running: map<nat, nat>
    var alive: map<nat, nat>
    var signalled: set<nat>
    var spawned: nat

    function Content(): State
      reads this
    {
      State(running, alive, signalled, spawned)
    }

    constructor ()
      ensures Content() == State(map[], map[], {}, 0)
    {
      running, alive, signalled, spawned := map[], map[], {}, 0;
    }

    method StartParser(id: nat) returns (started: bool)
      modifies this
      ensures Content() == Start(old(Content()), id) && started == (id !in old(running))
    {
      if id in running { return false; }
      var child := spawned;
      alive, spawned := alive[child := id], spawned + 1;
      running := running[id := child];
      started := true;
    }

    method StopParser(id: nat)
      modifies this
      ensures Content() == Stop(old(Content()), id)
    {
      if id !in running { return; }
      signalled := signalled + {running[id]};
      running := running - {id};
    }

    method OnExit(child: nat, code: int)
      requires child in alive
      modifies this
      ensures Content() == Exit(old(Content()), child, code)
      ensures var id := old(alive)[child];
              && (forall other :: other in old(running) && other != id ==>
                    other in running && running[other] == old(running)[other])
              && (code == 0 ==> id !in running && alive == old(alive) - {child} && spawned == old(spawned))
              && (code != 0 ==>
                    && id in running && running[id] == old(spawned) && spawned == old(spawned) + 1
                    && alive == (old(alive) - {child})[old(spawned) := id])
    {
      var id := alive[child];
      alive := alive - {child};
      running := running - {id};
      if code != 0 { var _ := StartParser(id); }
    }

    /** One tick. The second loop runs over a snapshot of the tracked ids. */
    method ExecutePlanner(predictionSetIds: seq<nat>)
      modifies this
      ensures Content() == Tick(old(Content()), predictionSetIds)
      ensures forall id :: id in old(running) && id !in predictionSetIds ==> old(running)[id] in signalled
      ensures old(signalled) <= signalled
    {
      ghost var before := Content();
      for i := 0 to |predictionSetIds|
        invariant Content() == StartAll(before, predictionSetIds[..i])
      {
        assert predictionSetIds[..i + 1][..i] == predictionSetIds[..i];
        var _ := StartParser(predictionSetIds[i]);
      }
      assert predictionSetIds[..|predictionSetIds|] == predictionSetIds;
      ghost var started := Content();
      var keys := running.Keys;
      while keys != {}
        invariant keys <= started.running.Keys
        invariant running == started.running - (Unwanted(started, predictionSetIds) - keys)
        invariant signalled == started.signalled + set id | id in Unwanted(started, predictionSetIds) - keys ::
                  started.running[id]
        invariant alive == started.alive && spawned == started.spawned
      {
        var id :| id in keys;
        assert id in running && running[id] == started.running[id];
        ghost var done := Unwanted(started, predictionSetIds) - keys;
        keys := keys - {id};
        if id !in predictionSetIds {
          StopParser(id);
          assert Unwanted(started, predictionSetIds) - keys == done + {id};
        } else {
          assert Unwanted(started, predictionSetIds) - keys == done;
        }
      }
      assert Unwanted(started, predictionSetIds) - keys == Unwanted(started, predictionSetIds);
      StartAllAdds(before, predictionSetIds);
    }
  }

  // ---------------------------------------------------------------- every run

  datatype Step = TickStep(ids: seq<nat>) | ExitStep(child: nat, code: int)

  function Next(s: State, step: Step): State {
    match step
    case TickStep(ids) => Tick(s, ids)
    case ExitStep(child, code) => Exit(s, child, code)
  }

  function After(s: State, steps: seq<Step>): State {
    if |steps| == 0 then s else Next(After(s, steps[..|steps| - 1]), steps[|steps| - 1])
  }

  /** Tracked children are alive and belong to their market; numbers are used once. */
  ghost predicate Inv(s: State) {
    && (forall id :: id in s.running ==> s.running[id] in s.alive && s.alive[s.running[id]] == id)
    && (forall c :: c in s.alive ==> c < s.spawned)
    && (forall c :: c in s.signalled ==> c < s.spawned)
  }

  ghost predicate OneEach(s: State) {
    forall c, d :: c in s.alive && d in s.alive && s.alive[c] == s.alive[d] ==> c == d
  }

  /** Every child that is alive and was not told to stop is tracked. */
  ghost predicate NoOrphan(s: State) {
    forall c :: c in s.alive && c !in s.signalled ==> s.alive[c] in s.running && s.running[s.alive[c]] == c
  }

  /** A market is wanted that is not tracked although a child of it is still alive. */
  ghost predicate WantedTooEarly(s: State, ids: seq<nat>) {
    exists c :: c in s.alive && s.alive[c] in ids && s.alive[c] !in s.running
  }

  lemma StartKeeps(s: State, id: nat)
    requires Inv(s)
    ensures Inv(Start(s, id)) && id in Start(s, id).running
    ensures OneEach(s) ==> (OneEach(Start(s, id)) <==> id in s.running || forall c :: c in s.alive ==> s.alive[c] != id)
    ensures !OneEach(s) ==> !OneEach(Start(s, id))
    ensures NoOrphan(s) ==> NoOrphan(Start(s, id))
  {
    var t := Start(s, id);
    if id !in s.running {
      if c :| c in s.alive && s.alive[c] == id { assert t.alive[c] == t.alive[s.spawned]; }
      if c, d :| c in s.alive && d in s.alive && s.alive[c] == s.alive[d] && c != d { assert t.alive[c] == t.alive[d]; }
    }
  }

  /** What starting markets adds to a state. */
  ghost predicate Extends(s: State, t: State, ids: seq<nat>) {
    && (forall id :: id in t.running <==> id in s.running || id in ids)
    && (forall id :: id in s.running ==> t.running[id] == s.running[id])
    && (forall c :: c in s.alive ==> c in t.alive && t.alive[c] == s.alive[c])
    && (forall c :: c in t.alive && c !in s.alive ==> t.alive[c] in t.running && t.running[t.alive[c]] == c)
    && t.signalled == s.signalled
  }

  /** Starting parsers drops none and signals none. */
  lemma {:induction false} StartAllAdds(s: State, ids: seq<nat>)
    ensures var t := StartAll(s, ids);
            && t.signalled == s.signalled
            && forall id :: id in s.running ==> id in t.running && t.running[id] == s.running[id]
  {
    if |ids| == 0 {
    } else {
      StartAllAdds(s, ids[..|ids| - 1]);
    }
  }

  lemma {:induction false} StartAllKeeps(s: State, ids: seq<nat>)
    requires Inv(s)
    ensures var t := StartAll(s, ids); Inv(t) && Extends(s, t, ids) && (NoOrphan(s) ==> NoOrphan(t))
  {
    if |ids| == 0 {
    } else {
      hide NoOrphan, OneEach;
      var init, last := ids[..|ids| - 1], ids[|ids| - 1];
      StartAllKeeps(s, init);
      StartKeeps(StartAll(s, init), last);
      assert ids == init + [last];
      StartExtends(s, StartAll(s, init), init, last);
    }
  }

  lemma StartExtends(s: State, t: State, ids: seq<nat>, id: nat)
    requires Inv(s) && Inv(t) && Extends(s, t, ids)
    ensures Extends(s, Start(t, id), ids + [id])
  {}

  /** Starting the wanted markets keeps one child each exactly when none is wanted too early. */
  lemma {:induction false} StartAllOneEach(s: State, ids: seq<nat>)
    requires Inv(s) && OneEach(s)
    ensures OneEach(StartAll(s, ids)) <==> !WantedTooEarly(s, ids)
  {
    if |ids| > 0 {
      var init, last := ids[..|ids| - 1], ids[|ids| - 1];
      assert ids == init + [last];
      StartAllOneEach(s, init);
      StartAllKeeps(s, init);
      var t := StartAll(s, init);
      StartKeeps(t, last);
      if WantedTooEarly(s, init) {
        var c :| c in s.alive && s.alive[c] in init && s.alive[c] !in s.running;
        assert s.alive[c] in ids;
      } else if c :| c in s.alive && s.alive[c] in ids && s.alive[c] !in s.running {
        assert s.alive[c] == last && last !in init && t.alive[c] == last && last !in t.running;
      } else if last !in t.running {
        forall c | c in t.alive ensures t.alive[c] != last {
          if c in s.alive { assert s.alive[c] != last; }
        }
      }
    }
  }

  /** After every completed tick the tracked markets are the wanted ones, each with a child that is
      alive; a market that was tracked keeps its child. */
  lemma TickTracksTheWanted(s: State, ids: seq<nat>)
    requires Inv(s)
    ensures var t := Tick(s, ids);
            && Inv(t)
            && (forall id :: id in t.running <==> id in ids)
            && (forall id :: id in ids ==> t.running[id] in t.alive && t.alive[t.running[id]] == id)
            && (forall id :: id in ids && id in s.running ==> t.running[id] == s.running[id])
            && (NoOrphan(s) ==> NoOrphan(t))
  {
    StartAllKeeps(s, ids);
    var started := StartAll(s, ids);
    var t := Tick(s, ids);
    if NoOrphan(s) {
      forall c | c in t.alive && c !in t.signalled ensures t.alive[c] in t.running && t.running[t.alive[c]] == c {
        var id := started.alive[c];
        assert started.running[id] == c;
        assert id in Unwanted(started, ids) ==> c in t.signalled;
      }
    }
  }

  /** A tick keeps at most one child per market alive exactly when no market is wanted again before its
      stopped child has exited. */
  lemma TickKeepsOneEachExactlyWhen(s: State, ids: seq<nat>)
    requires Inv(s) && OneEach(s)
    ensures OneEach(Tick(s, ids)) <==> !WantedTooEarly(s, ids)
  {
    StartAllOneEach(s, ids);
    assert Tick(s, ids).alive == StartAll(s, ids).alive;
  }

  /** An exit, clean or not, keeps it. */
  lemma ExitKeeps(s: State, child: nat, code: int)
    requires Inv(s) && OneEach(s)
    ensures var t := Exit(s, child, code); Inv(t) && OneEach(t) && (NoOrphan(s) ==> NoOrphan(t))
  {
    if child in s.alive {
      var t := s.(alive := s.alive - {child}, running := s.running - {s.alive[child]});
      assert Inv(t) && OneEach(t);
      assert NoOrphan(s) ==> NoOrphan(t);
      StartKeeps(t, s.alive[child]);
    }
  }

  /** Some tick of the run wants a market too early. */
  ghost predicate EverTooEarly(s: State, steps: seq<Step>) {
    exists k :: 0 <= k < |steps| && steps[k].TickStep? && WantedTooEarly(After(s, steps[..k]), steps[k].ids)
  }

  ghost predicate AlwaysOneEach(s: State, steps: seq<Step>) {
    forall k :: 0 <= k <= |steps| ==> OneEach(After(s, steps[..k]))
  }

  lemma {:induction false} InvRun(s: State, steps: seq<Step>)
    requires Inv(s)
    ensures Inv(After(s, steps))
  {
    if |steps| == 0 {
    } else {
      InvRun(s, steps[..|steps| - 1]);
      InvNext(After(s, steps[..|steps| - 1]), steps[|steps| - 1]);
    }
  }

  lemma InvNext(s: State, step: Step)
    requires Inv(s)
    ensures Inv(Next(s, step))
  {
    match step {
      case TickStep(ids) => TickTracksTheWanted(s, ids);
      case ExitStep(child, code) =>
        if child in s.alive {
          var t := s.(alive := s.alive - {child}, running := s.running - {s.alive[child]});
          assert Inv(t);
          StartKeeps(t, s.alive[child]);
        }
    }
  }

  /** Over every run of ticks, stops, clean exits, crashes and restarts: at no time do two parsers of one
      market live exactly when no tick wants a market before its stopped parser has exited. Then no live
      parser is forgotten either. */
  lemma {:induction false} OneEachExactlyWhen(s: State, steps: seq<Step>)
    requires Inv(s) && OneEach(s) && NoOrphan(s)
    ensures AlwaysOneEach(s, steps) <==> !EverTooEarly(s, steps)
    ensures AlwaysOneEach(s, steps) ==> NoOrphan(After(s, steps))
  {
    assert steps[..|steps|] == steps;
    if |steps| > 0 {
      var init, last := steps[..|steps| - 1], steps[|steps| - 1];
      OneEachExactlyWhen(s, init);
      InvRun(s, init);
      LastStep(s, steps);
      if AlwaysOneEach(s, init) {
        var t := After(s, init);
        assert init[..|init|] == init;
        match last {
          case TickStep(ids) => TickKeepsOneEachExactlyWhen(t, ids); TickTracksTheWanted(t, ids);
          case ExitStep(child, code) => ExitKeeps(t, child, code);
        }
      }
    } else {
      assert After(s, steps[..0]) == s;
    }
  }

  lemma LastStep(s: State, steps: seq<Step>)
    requires |steps| > 0
    ensures var init, last := steps[..|steps| - 1], steps[|steps| - 1];
            && (AlwaysOneEach(s, steps) <==> AlwaysOneEach(s, init) && OneEach(After(s, steps)))
            && (EverTooEarly(s, steps)
              <==> EverTooEarly(s, init) || (last.TickStep? && WantedTooEarly(After(s, init), last.ids)))
  {
    hide OneEach, WantedTooEarly, After;
    var init := steps[..|steps| - 1];
    assert steps[..|steps|] == steps;
    assert forall k :: 0 <= k <= |init| ==> init[..k] == steps[..k];
    if AlwaysOneEach(s, steps) {
      forall k | 0 <= k <= |init| ensures OneEach(After(s, init[..k])) { assert OneEach(After(s, steps[..k])); }
    }
    if EverTooEarly(s, init) {
      var k :| 0 <= k < |init| && init[k].TickStep? && WantedTooEarly(After(s, init[..k]), init[k].ids);
      assert steps[k].TickStep? && WantedTooEarly(After(s, steps[..k]), steps[k].ids);
    }
    if EverTooEarly(s, steps) {
      var k :| 0 <= k < |steps| && steps[k].TickStep? && WantedTooEarly(After(s, steps[..k]), steps[k].ids);
      if k < |init| { assert init[k].TickStep? && WantedTooEarly(After(s, init[..k]), init[k].ids); }
    }
  }

  /** The bad run: a market is dropped and wanted again while its first parser is still exiting. That
      exit then makes the planner forget the second parser, and the next tick starts a third. */
  lemma ForgottenParser(id: nat)
    ensures var none := State(map[], map[], {}, 0);
            var s := Tick(Tick(Tick(none, [id]), []), [id]);
            var t := Tick(Exit(s, 0, 0), [id]);
            && s.alive == map[0 := id, 1 := id] && s.running == map[id := 1]
            && t.alive == map[1 := id, 2 := id] && t.running == map[id := 2] && 1 !in t.signalled
  {
    var none := State(map[], map[], {}, 0);
    StartOnly(none, id);
    var a := Tick(none, [id]);
    assert a == State(map[id := 0], map[0 := id], {}, 1);
    var b := Tick(a, []);
    assert Unwanted(a, []) == {id};
    assert b == State(map[], map[0 := id], {0}, 1);
    StartOnly(b, id);
    var s := Tick(b, [id]);
    assert s == State(map[id := 1], map[0 := id, 1 := id], {0}, 2);
    var e := Exit(s, 0, 0);
    assert e == State(map[], map[1 := id], {0}, 2);
    StartOnly(e, id);
    assert Tick(e, [id]) == State(map[id := 2], map[1 := id, 2 := id], {0}, 3);
  }

  lemma StartOnly(s: State, id: nat)
    requires s.running == map[]
    ensures Tick(s, [id]) == State(map[id := s.spawned], s.alive[s.spawned := id], s.signalled, s.spawned + 1)
  {
    assert [id][..0] == [];
    var t := Start(s, id);
    assert StartAll(s, [id]) == t;
    assert Unwanted(t, [id]) == {};
    assert t.running - {} == t.running;
  }
}
