/**
 The set of track ids the transcription agent is processing, seen across
 interleaved sessions. Each `process_audio_track` task checks the set and
 adds its id before its first suspension point, and discards the id in its
 `finally` block; `on_track_unsubscribed` discards an id at once, and the
 status loop reports the size of the set. A trace is the order in which
 those atomic steps happen.
 */
module SessionRegistry {

  datatype RoomStep =
    | Subscribe(id: string)      // a session is requested for a track id
    | Unsubscribe(id: string)    // the track is unsubscribed
    | Finish(session: nat)       // the session at this position ends (normally or by an error)
    | Tick                       // the status loop reports

  /* `registry` is `processing_tracks`; `live` holds the id of every session
     still running, oldest first; `heartbeats` the counts reported so far. */
  datatype RoomState = RoomState(registry: set<string>, live: seq<string>, heartbeats: seq<nat>)

  const Initial := RoomState({}, [], [])

  /* One atomic step. A subscription whose id is registered starts nothing;
     otherwise the id is added and a session starts. A finishing session
     discards its own id, whoever else may hold it. */
  function Step(s: RoomState, step: RoomStep): RoomState
  {
    match step
    case Subscribe(id) =>
      if id in s.registry then s
      else RoomState(s.registry + {id}, s.live + [id], s.heartbeats)
    case Unsubscribe(id) =>
      s.(registry := s.registry - {id})
    case Finish(k) =>
      if k < |s.live| then RoomState(s.registry - {s.live[k]}, s.live[..k] + s.live[k + 1..], s.heartbeats)
      else s
    case Tick =>
      s.(heartbeats := s.heartbeats + [|s.registry|])
  }

  function Run(s: RoomState, steps: seq<RoomStep>): RoomState
    decreases |steps|
  {
    if steps == [] then s else Run(Step(s, steps[0]), steps[1..])
  }

  predicate NoDuplicates(xs: seq<string>)
  {
    forall i, j :: 0 <= i < j < |xs| ==> xs[i] != xs[j]
  }

  /* The ids of the running sessions. */
  function Running(s: RoomState): set<string>
  {
    set i | 0 <= i < |s.live| :: s.live[i]
  }

  /* At most one session per id, and the registry names exactly the ids of
     the running sessions. */
  predicate Consistent(s: RoomState)
  {
    NoDuplicates(s.live) && s.registry == Running(s)
  }

  /* Every registered id belongs to a running session. */
  predicate RegistryWithinSessions(s: RoomState)
  {
    s.registry <= Running(s)
  }

  predicate NoUnsubscribe(steps: seq<RoomStep>)
  {
    forall i :: 0 <= i < |steps| ==> !steps[i].Unsubscribe?
  }

  /* The distinct elements of a sequence. */
  function Ids(xs: seq<string>): set<string>
  {
    set i | 0 <= i < |xs| :: xs[i]
  }

  /* The ids of a sequence are those of its front and its last element. */
  lemma IdsSnoc(p: seq<string>, last: string)
    ensures Ids(p + [last]) == Ids(p) + {last}
  {
    var xs := p + [last];
    forall y | y in Ids(xs) ensures y in Ids(p) + {last} {
      var i :| 0 <= i < |xs| && xs[i] == y;
      if i < |p| { assert p[i] == y; }
    }
    forall y | y in Ids(p) ensures y in Ids(xs) {
      var i :| 0 <= i < |p| && p[i] == y;
      assert xs[i] == y;
    }
    assert xs[|p|] == last;
  }

  /* The ids of a sequence without duplicates are as many as its elements. */
  lemma {:induction false} DistinctCount(xs: seq<string>)
    requires NoDuplicates(xs)
    ensures |set i | 0 <= i < |xs| :: xs[i]| == |xs|
  {
    if xs != [] {
      var p := xs[..|xs| - 1];
      var last := xs[|xs| - 1];
      assert NoDuplicates(p) by {
        forall i, j | 0 <= i < j < |p| ensures p[i] != p[j] { assert p[i] == xs[i] && p[j] == xs[j]; }
      }
      DistinctCount(p);
      assert xs == p + [last];
      IdsSnoc(p, last);
      assert last !in Ids(p) by {
        forall i | 0 <= i < |p| ensures p[i] != last { assert p[i] == xs[i]; }
      }
    }
  }

  /** A step other than an unsubscription keeps the registry in step with
      the running sessions. */
  lemma StepKeepsConsistent(s: RoomState, step: RoomStep)
    requires Consistent(s) && !step.Unsubscribe?
    ensures Consistent(Step(s, step))
  {
    match step
    case Subscribe(id) => if id !in s.registry { SubscribeKeepsConsistent(s, id); }
    case Finish(k) => if k < |s.live| { FinishKeepsConsistent(s, k); }
    case Tick =>
  }

  lemma SubscribeKeepsConsistent(s: RoomState, id: string)
    requires Consistent(s) && id !in s.registry
    ensures Consistent(Step(s, Subscribe(id)))
  {
    var t := Step(s, Subscribe(id));
    assert t.live == s.live + [id];
    forall i, j | 0 <= i < j < |t.live| ensures t.live[i] != t.live[j] {
      assert t.live[i] == s.live[i];
      if j < |s.live| {
        assert t.live[j] == s.live[j];
      } else {
        assert s.live[i] in s.registry;
      }
    }
    forall y ensures y in t.registry <==> y in set i | 0 <= i < |t.live| :: t.live[i] {
      if y in s.registry {
        var i :| 0 <= i < |s.live| && s.live[i] == y;
        assert t.live[i] == y;
      }
      if y == id {
        assert t.live[|s.live|] == id;
      }
      if y in set i | 0 <= i < |t.live| :: t.live[i] {
        var i :| 0 <= i < |t.live| && t.live[i] == y;
        if i < |s.live| { assert s.live[i] == y; }
      }
    }
  }

  lemma FinishKeepsConsistent(s: RoomState, k: nat)
    requires Consistent(s) && k < |s.live|
    ensures Consistent(Step(s, Finish(k)))
  {
    var rest := s.live[..k] + s.live[k + 1..];
    assert Step(s, Finish(k)) == RoomState(s.registry - {s.live[k]}, rest, s.heartbeats);
    assert |rest| == |s.live| - 1;
    forall i | 0 <= i < |rest| ensures rest[i] == s.live[if i < k then i else i + 1] {}
    forall i, j | 0 <= i < j < |rest| ensures rest[i] != rest[j] {
      assert rest[i] == s.live[if i < k then i else i + 1];
      assert rest[j] == s.live[if j < k then j else j + 1];
    }
    forall y | y in s.registry - {s.live[k]} ensures y in Ids(rest) {
      var i :| 0 <= i < |s.live| && s.live[i] == y;
      var i' := if i < k then i else i - 1;
      assert rest[i'] == y;
    }
    forall y | y in Ids(rest) ensures y in s.registry - {s.live[k]} {
      var i :| 0 <= i < |rest| && rest[i] == y;
      var i' := if i < k then i else i + 1;
      assert s.live[i'] == y && i' != k;
    }
  }

  /** Without unsubscriptions, any interleaving keeps the registry exactly
      the ids of the running sessions, at most one session per id. */
  lemma {:induction false} RunKeepsConsistent(s: RoomState, steps: seq<RoomStep>)
    requires Consistent(s) && NoUnsubscribe(steps)
    ensures Consistent(Run(s, steps))
    decreases |steps|
  {
    if steps != [] {
      StepKeepsConsistent(s, steps[0]);
      assert NoUnsubscribe(steps[1..]) by {
        forall i | 0 <= i < |steps[1..]| ensures !steps[1..][i].Unsubscribe? { assert steps[1..][i] == steps[i + 1]; }
      }
      RunKeepsConsistent(Step(s, steps[0]), steps[1..]);
    }
  }

  /** In a consistent state the status loop reports the number of running
      sessions. */
  lemma HeartbeatCountsSessions(s: RoomState)
    requires Consistent(s)
    ensures Step(s, Tick).heartbeats == s.heartbeats + [|s.live|]
  {
    DistinctCount(s.live);
  }

  /** Two requests for the same id, one after the other and without a finish
      in between (the race `on_track_subscribed` and
      `process_participant_tracks` can run), start exactly one session. */
  lemma DuplicateRequestStartsOneSession(s: RoomState, id: string)
    ensures var t := Run(s, [Subscribe(id), Subscribe(id)]);
      && t.registry == s.registry + {id}
      && t.live == s.live + (if id in s.registry then [] else [id])
  {
    var s1 := Step(s, Subscribe(id));
    assert Step(s1, Subscribe(id)) == s1;
    assert Run(s1, [Subscribe(id)]) == Run(s1, []);
  }

  /** An unsubscription releases the id while its session still runs, so a
      new subscription for the same track starts a second session beside it;
      when the older one ends it discards the id the newer one holds, and the
      newer one keeps running unregistered. */
  lemma EarlyReleaseAllowsTwoSessions(id: string)
    ensures Run(Initial, [Subscribe(id), Unsubscribe(id), Subscribe(id)]).live == [id, id]
    ensures var t := Run(Initial, [Subscribe(id), Unsubscribe(id), Subscribe(id), Finish(0)]);
      t.live == [id] && id !in t.registry
  {
    var s1 := Step(Initial, Subscribe(id));
    var s2 := Step(s1, Unsubscribe(id));
    var s3 := Step(s2, Subscribe(id));
    var s4 := Step(s3, Finish(0));
    assert s3.live == [id, id];
    assert s4.live == [id] && s4.registry == {};
    assert Run(s2, [Subscribe(id)]) == s3;
    assert Run(s1, [Unsubscribe(id), Subscribe(id)]) == s3;
    assert Run(s3, [Finish(0)]) == s4;
    assert Run(s2, [Subscribe(id), Finish(0)]) == s4;
    assert Run(s1, [Unsubscribe(id), Subscribe(id), Finish(0)]) == s4;
  }

  /** Two sessions, a report, one of them ends, a report: the status loop
      reports 2 and then 1. */
  lemma HeartbeatScenario(a: string, b: string)
    requires a != b
    ensures Run(Initial, [Subscribe(a), Subscribe(b), Tick, Finish(0), Tick]).heartbeats == [2, 1]
  {
    var s1 := Step(Initial, Subscribe(a));
    var s2 := Step(s1, Subscribe(b));
    var s3 := Step(s2, Tick);
    var s4 := Step(s3, Finish(0));
    var s5 := Step(s4, Tick);
    assert s2.registry == {a, b} && |s2.registry| == 2;
    assert s4.registry == {b} && |s4.registry| == 1;
    assert s5.heartbeats == [2, 1];
    assert Run(s4, [Tick]) == s5;
    assert Run(s3, [Finish(0), Tick]) == s5;
    assert Run(s2, [Tick, Finish(0), Tick]) == s5;
    assert Run(s1, [Subscribe(b), Tick, Finish(0), Tick]) == s5;
  }

  /* A subset is no larger than its superset. */
  lemma {:induction false} SubsetSize(a: set<string>, b: set<string>)
    requires a <= b
    ensures |a| <= |b|
    decreases |a|
  {
    if a != {} {
      var x :| x in a;
      SubsetSize(a - {x}, b - {x});
    }
  }

  /* A sequence has no more distinct elements than positions. */
  lemma {:induction false} IdsAtMostLength(xs: seq<string>)
    ensures |set i | 0 <= i < |xs| :: xs[i]| <= |xs|
  {
    if xs != [] {
      var p := xs[..|xs| - 1];
      IdsAtMostLength(p);
      assert xs == p + [xs[|xs| - 1]];
      IdsSnoc(p, xs[|xs| - 1]);
      assert |Ids(p) + {xs[|xs| - 1]}| <= |Ids(p)| + 1;
    }
  }

  /** Every step, an unsubscription included, keeps each registered id
      tied to a running session: ids are added only when a session starts,
      and a session's end removes at most its own id. */
  lemma StepKeepsRegistryWithinSessions(s: RoomState, step: RoomStep)
    requires RegistryWithinSessions(s)
    ensures RegistryWithinSessions(Step(s, step))
  {
    var t := Step(s, step);
    match step
    case Subscribe(id) =>
      if id !in s.registry {
        forall y | y in t.registry ensures y in Running(t) {
          if y == id {
            assert t.live[|s.live|] == id;
          } else {
            var i :| 0 <= i < |s.live| && s.live[i] == y;
            assert t.live[i] == y;
          }
        }
      }
    case Unsubscribe(id) =>
    case Finish(k) =>
      if k < |s.live| {
        forall y | y in t.registry ensures y in Running(t) {
          var i :| 0 <= i < |s.live| && s.live[i] == y;
          assert i != k;
          var i' := if i < k then i else i - 1;
          assert t.live[i'] == y;
        }
      }
    case Tick =>
  }

  lemma {:induction false} RunKeepsRegistryWithinSessions(s: RoomState, steps: seq<RoomStep>)
    requires RegistryWithinSessions(s)
    ensures RegistryWithinSessions(Run(s, steps))
    decreases |steps|
  {
    if steps != [] {
      StepKeepsRegistryWithinSessions(s, steps[0]);
      RunKeepsRegistryWithinSessions(Step(s, steps[0]), steps[1..]);
    }
  }

  /** Over every trace, unsubscriptions included, each status report counts
      at most the sessions running at that moment: an early release can
      only make the count fall short of them, never exceed them. */
  lemma HeartbeatAtMostSessions(steps: seq<RoomStep>)
    ensures var s := Run(Initial, steps);
      && RegistryWithinSessions(s)
      && Step(s, Tick).heartbeats == s.heartbeats + [|s.registry|]
      && |s.registry| <= |s.live|
  {
    RunKeepsRegistryWithinSessions(Initial, steps);
    var s := Run(Initial, steps);
    IdsAtMostLength(s.live);
    SubsetSize(s.registry, Running(s));
  }
}
