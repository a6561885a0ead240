/**
 The LiveKit transcription agent (agents/transcription_agent.py): one
 transcription session per subscribed audio track, guarded by the set
 `processing_tracks`; each session forwards the track's audio frames to a
 Deepgram speech stream and turns the stream's speech events into data
 messages published to the room and, for final transcripts, entries appended
 to a per-room, per-day JSON transcript file.

 The room, the speech engine and the filesystem are inputs: a track carries
 the frames its `AudioStream` yields, an `EngineRun` is the sequence of speech
 events the engine yields for one session (and whether the session fails
 part-way), every event carries the wall-clock reading taken while it is
 handled, and the transcripts directory is a map from file name to content.
 */
module Transcription {
  import opened Wrappers
  import opened Strings

  // ---------------------------------------------------------------------------
  // Room, tracks and speech events

  datatype TrackKind = KindUnknown | KindAudio | KindVideo

  datatype AudioFrame = AudioFrame(samples: seq<int>)

  /* A subscribed track and the frames `rtc.AudioStream(track)` yields for it. */
  datatype Track = Track(sid: string, kind: TrackKind, frames: seq<AudioFrame>)

  /* A track publication; `track` is absent while the track is not subscribed. */
  datatype Publication = Publication(track: Option<Track>)

  datatype Participant = Participant(sid: string, identity: string, publications: seq<Publication>)

  datatype SpeechEventType = InterimTranscript | FinalTranscript | EndOfSpeech

  /* One ranked alternative; the confidence is absent when the engine gives none. */
  datatype Alternative = Alternative(text: string, confidence: Option<real>)

  /* The wall-clock readings taken while an event is handled, one per
     `datetime.now()` call: `iso` for the message published, `day`
     (`strftime('%Y-%m-%d')`) for the transcript file's name, and `entryIso`
     for the entry saved. The three are separate readings and may differ. */
  datatype Clock = Clock(iso: string, day: string, entryIso: string)

  datatype SpeechEvent = SpeechEvent(kind: SpeechEventType, alternatives: seq<Alternative>, at: Clock)

  /* What the speech engine yields for one session: its events and, when the
     session fails (an engine, publish or file error), the index of the event
     at which the failure is raised. */
  datatype EngineRun = EngineRun(events: seq<SpeechEvent>, failsAt: Option<nat>)

  /* The events a session handles before it stops. */
  function Handled(run: EngineRun): (r: seq<SpeechEvent>)
    ensures r <= run.events
    ensures run.failsAt.None? ==> r == run.events
    ensures run.failsAt.Some? ==> |r| == if run.failsAt.value < |run.events| then run.failsAt.value else |run.events|
  {
    if run.failsAt.Some? && run.failsAt.value < |run.events| then run.events[..run.failsAt.value] else run.events
  }

  /* The session key `f"{participant.sid}_{track.sid}"`. */
  function TrackId(participant: Participant, track: Track): string
  {
    participant.sid + "_" + track.sid
  }

  // ---------------------------------------------------------------------------
  // Outbound data messages, transcript files and the actions of a session

  /* The JSON objects published with `publish_data(..., reliable=True)`. */
  datatype DataMessage =
    | Transcription(text: string, isFinal: bool, participant: string, timestamp: string, confidence: Option<real>)
    | AgentStatus(processingTracks: nat, timestamp: string)

  /* One object of a transcript file: `{timestamp, participant, text, room}`. */
  datatype TranscriptEntry = TranscriptEntry(timestamp: string, participant: string, text: string, room: string)

  /* A transcript file as `json.load` sees it: a list of entries, or text it
     cannot decode. */
  datatype TranscriptFile = Entries(entries: seq<TranscriptEntry>) | Unparsable

  /* The transcripts directory: file name to content; a missing key is a
     missing file. */
  type Store = map<string, TranscriptFile>

  /* The two side effects a session has on the outside world. */
  datatype Action = Publish(message: DataMessage) | Save(file: string, entry: TranscriptEntry)

  /* `f"{room.name}_{date}.json"` */
  function TranscriptFileName(room: string, day: string): string
  {
    room + "_" + day + ".json"
  }

  /** Distinct (room, day) pairs never share a file, given that days are
      always written `%Y-%m-%d` (ten characters). */
  lemma TranscriptFileNameInjective(room1: string, day1: string, room2: string, day2: string)
    requires |day1| == 10 && |day2| == 10
    requires TranscriptFileName(room1, day1) == TranscriptFileName(room2, day2)
    ensures room1 == room2 && day1 == day2
  {
    var f := TranscriptFileName(room1, day1);
    assert |room1| == |room2|;
    assert room1 == f[..|room1|] && room2 == f[..|room2|];
    assert day1 == f[|room1| + 1..|room1| + 11] && day2 == f[|room2| + 1..|room2| + 11];
  }

  /* `send_transcription`: nothing for blank text, otherwise one message. */
  function SendActions(text: string, isFinal: bool, participant: string, confidence: Option<real>, now: Clock): seq<Action>
  {
    if IsBlank(text) then [] else [Publish(Transcription(text, isFinal, participant, now.iso, confidence))]
  }

  /* `save_transcript`: nothing for blank text, otherwise one entry appended to
     the file of the room and the current day. */
  function SaveActions(room: string, text: string, participant: string, now: Clock): seq<Action>
  {
    if IsBlank(text) then [] else [Save(TranscriptFileName(room, now.day), TranscriptEntry(now.entryIso, participant, text, room))]
  }

  /* The event has a first alternative whose text is not blank. */
  predicate HasText(e: SpeechEvent)
  {
    e.alternatives != [] && !IsBlank(e.alternatives[0].text)
  }

  /* One iteration of `process_stt_events`: interim and final transcripts use
     only the first alternative and are skipped when its text is blank; a
     final transcript is also saved; end of speech is only logged. */
  function EventActions(e: SpeechEvent, participant: string, room: string): (r: seq<Action>)
    ensures |r| <= 2
    ensures r != [] <==> e.kind != EndOfSpeech && HasText(e)
    ensures r != [] ==> r[0] == Publish(Transcription(e.alternatives[0].text, e.kind == FinalTranscript,
                                                      participant, e.at.iso, e.alternatives[0].confidence))
    ensures |r| == 2 <==> e.kind == FinalTranscript && HasText(e)
    ensures |r| == 2 ==> r[1] == Save(TranscriptFileName(room, e.at.day),
                                      TranscriptEntry(e.at.entryIso, participant, e.alternatives[0].text, room))
  {
    match e.kind
    case EndOfSpeech => []
    case InterimTranscript =>
      if e.alternatives != [] && !IsBlank(e.alternatives[0].text) then
        SendActions(e.alternatives[0].text, false, participant, e.alternatives[0].confidence, e.at)
      else []
    case FinalTranscript =>
      if e.alternatives != [] && !IsBlank(e.alternatives[0].text) then
        var alt := e.alternatives[0];
        SendActions(alt.text, true, participant, alt.confidence, e.at) + SaveActions(room, alt.text, participant, e.at)
      else []
  }

  /* The actions of `process_stt_events` over a run of events, in order. */
  function SessionActions(events: seq<SpeechEvent>, participant: string, room: string): seq<Action>
  {
    if events == [] then []
    else SessionActions(events[..|events| - 1], participant, room) + EventActions(events[|events| - 1], participant, room)
  }

  /** Handling two runs of events one after the other acts as the first run's
      actions followed by the second's: nothing is reordered. */
  lemma {:induction false} SessionActionsConcat(a: seq<SpeechEvent>, b: seq<SpeechEvent>, participant: string, room: string)
    ensures SessionActions(a + b, participant, room) == SessionActions(a, participant, room) + SessionActions(b, participant, room)
  {
    if b == [] {
      assert a + b == a;
    } else {
      var b' := b[..|b| - 1];
      assert (a + b)[..|a + b| - 1] == a + b';
      assert (a + b)[|a + b| - 1] == b[|b| - 1];
      SessionActionsConcat(a, b', participant, room);
    }
  }
  lemma SessionActionsSnoc(events: seq<SpeechEvent>, i: nat, participant: string, room: string)
    requires i < |events|
    ensures SessionActions(events[..i + 1], participant, room)
            == SessionActions(events[..i], participant, room) + EventActions(events[i], participant, room)
  {
    assert events[..i + 1][..i] == events[..i];
  }


  /** Events that are end-of-speech markers or carry no non-blank first
      alternative produce no message and no saved entry. */
  lemma {:induction false} SilentEventsHaveNoEffect(events: seq<SpeechEvent>, participant: string, room: string)
    requires forall i :: 0 <= i < |events| ==> events[i].kind == EndOfSpeech || !HasText(events[i])
    ensures SessionActions(events, participant, room) == []
  {
    if events != [] {
      SilentEventsHaveNoEffect(events[..|events| - 1], participant, room);
    }
  }

  /** Every message a session publishes is a transcription from the session's
      participant whose text is not blank. */
  lemma {:induction false} PublishedTextIsNeverBlank(events: seq<SpeechEvent>, participant: string, room: string)
    ensures forall a :: a in SessionActions(events, participant, room) && a.Publish? ==>
              a.message.Transcription? && !IsBlank(a.message.text) && a.message.participant == participant
  {
    if events != [] {
      PublishedTextIsNeverBlank(events[..|events| - 1], participant, room);
    }
  }

  /* Each saved entry immediately follows the final message it records. */
  predicate SavesFollowFinals(acts: seq<Action>, participant: string, room: string)
  {
    forall i :: 0 <= i < |acts| && acts[i].Save? ==>
      && 0 < i && acts[i - 1].Publish? && acts[i - 1].message.Transcription? && acts[i - 1].message.isFinal
      && acts[i].entry.participant == participant && acts[i].entry.text == acts[i - 1].message.text && acts[i].entry.room == room
  }

  /* Each final message is immediately followed by the entry saving its text. */
  predicate FinalsAreSaved(acts: seq<Action>)
  {
    forall i :: 0 <= i < |acts| && acts[i].Publish? && acts[i].message.Transcription? && acts[i].message.isFinal ==>
      i + 1 < |acts| && acts[i + 1].Save? && acts[i + 1].entry.text == acts[i].message.text
  }

  /** Saves and final messages come in pairs: each saved entry immediately
      follows the final message with the same text, is attributed to the
      same participant and lies in the session's room, and each final message is immediately followed by
      its saved entry. */
  lemma {:induction false} FinalMessagesAreSaved(events: seq<SpeechEvent>, participant: string, room: string)
    ensures SavesFollowFinals(SessionActions(events, participant, room), participant, room)
    ensures FinalsAreSaved(SessionActions(events, participant, room))
  {
    if events != [] {
      var prefix := events[..|events| - 1];
      var e := events[|events| - 1];
      var p := SessionActions(prefix, participant, room);
      var r := EventActions(e, participant, room);
      FinalMessagesAreSaved(prefix, participant, room);
      var acts := p + r;
      assert acts == SessionActions(events, participant, room);
      forall i | 0 <= i < |acts| && acts[i].Save?
        ensures 0 < i && acts[i - 1].Publish? && acts[i - 1].message.Transcription? && acts[i - 1].message.isFinal
          && acts[i].entry.participant == participant && acts[i].entry.text == acts[i - 1].message.text && acts[i].entry.room == room
      {
        if i >= |p| {
          assert acts[i] == r[i - |p|];
          assert r[0].Publish?;
          assert i - |p| == 1 && |r| == 2;
          assert acts[i - 1] == r[0];
        } else {
          assert acts[i] == p[i] && p[i].Save?;
          assert acts[i - 1] == p[i - 1];
        }
      }
      forall i | 0 <= i < |acts| && acts[i].Publish? && acts[i].message.Transcription? && acts[i].message.isFinal
        ensures i + 1 < |acts| && acts[i + 1].Save? && acts[i + 1].entry.text == acts[i].message.text
      {
        if i >= |p| {
          assert acts[i] == r[i - |p|];
          assert |r| == 2;
          assert acts[i + 1] == r[1];
        } else {
          assert acts[i] == p[i];
          assert acts[i + 1] == p[i + 1];
        }
      }
    }
  }

  /* The messages among the actions, in order. */
  function Published(acts: seq<Action>): seq<DataMessage>
  {
    if acts == [] then []
    else Published(acts[..|acts| - 1]) + (if acts[|acts| - 1].Publish? then [acts[|acts| - 1].message] else [])
  }

  lemma {:induction false} PublishedConcat(a: seq<Action>, b: seq<Action>)
    ensures Published(a + b) == Published(a) + Published(b)
  {
    if b == [] {
      assert a + b == a;
    } else {
      assert (a + b)[..|a + b| - 1] == a + b[..|b| - 1];
      PublishedConcat(a, b[..|b| - 1]);
    }
  }

  /* The entries the actions save into `file`, in order. */
  function SavedTo(acts: seq<Action>, file: string): seq<TranscriptEntry>
  {
    if acts == [] then []
    else SavedTo(acts[..|acts| - 1], file) + (if acts[|acts| - 1].Save? && acts[|acts| - 1].file == file then [acts[|acts| - 1].entry] else [])
  }

  lemma {:induction false} SavedToConcat(a: seq<Action>, b: seq<Action>, file: string)
    ensures SavedTo(a + b, file) == SavedTo(a, file) + SavedTo(b, file)
  {
    if b == [] {
      assert a + b == a;
    } else {
      assert (a + b)[..|a + b| - 1] == a + b[..|b| - 1];
      SavedToConcat(a, b[..|b| - 1], file);
    }
  }

  /* What `save_transcript` reads back: the entries of an existing file that
     decodes, and the empty list for a missing or undecodable file. */
  function Loaded(store: Store, file: string): seq<TranscriptEntry>
  {
    if file in store && store[file].Entries? then store[file].entries else []
  }

  /* The read, append and write-back of `save_transcript`. */
  function Appended(store: Store, file: string, entry: TranscriptEntry): (r: Store)
    ensures Loaded(r, file) == Loaded(store, file) + [entry]
    ensures file !in store || store[file].Unparsable? ==> Loaded(r, file) == [entry]
    ensures file in r && r[file].Entries?
    ensures forall f :: f != file ==> (f in r <==> f in store) && (f in store ==> r[f] == store[f])
  {
    store[file := Entries(Loaded(store, file) + [entry])]
  }

  /* The transcripts directory after the actions' saves, in order. */
  function SaveAll(store: Store, acts: seq<Action>): Store
  {
    if acts == [] then store
    else
      var s := SaveAll(store, acts[..|acts| - 1]);
      var a := acts[|acts| - 1];
      if a.Save? then Appended(s, a.file, a.entry) else s
  }

  lemma {:induction false} SaveAllConcat(store: Store, a: seq<Action>, b: seq<Action>)
    ensures SaveAll(store, a + b) == SaveAll(SaveAll(store, a), b)
  {
    if b == [] {
      assert a + b == a;
    } else {
      assert (a + b)[..|a + b| - 1] == a + b[..|b| - 1];
      SaveAllConcat(store, a, b[..|b| - 1]);
    }
  }
  /* Acting out `a + b` on the room and the store is acting out `a`, then `b`. */
  lemma ActionsCompose(published: seq<DataMessage>, store: Store, a: seq<Action>, b: seq<Action>)
    ensures published + Published(a + b) == (published + Published(a)) + Published(b)
    ensures SaveAll(store, a + b) == SaveAll(SaveAll(store, a), b)
  {
    PublishedConcat(a, b);
    SaveAllConcat(store, a, b);
  }


  /** A run of saves loses nothing: a file ends with its earlier readable
      entries followed by every entry saved to it, in order, and N saves to a
      file add exactly N entries. */
  lemma {:induction false} SavesAreAppended(store: Store, acts: seq<Action>, file: string)
    ensures Loaded(SaveAll(store, acts), file) == Loaded(store, file) + SavedTo(acts, file)
  {
    if acts != [] {
      SavesAreAppended(store, acts[..|acts| - 1], file);
    }
  }

  /* A session of two interim transcripts, a final transcript and an
     end-of-speech marker, each with one alternative. */
  function InterimsThenFinal(first: string, second: string, final: string,
                             t1: Clock, t2: Clock, t3: Clock, t4: Clock): seq<SpeechEvent>
  {
    [ SpeechEvent(InterimTranscript, [Alternative(first, None)], t1),
      SpeechEvent(InterimTranscript, [Alternative(second, None)], t2),
      SpeechEvent(FinalTranscript, [Alternative(final, None)], t3),
      SpeechEvent(EndOfSpeech, [], t4) ]
  }

  /** Such a session publishes the two interim texts and the final text in
      order, then saves the final text; end of speech does nothing. */
  lemma InterimsThenFinalActions(first: string, second: string, final: string,
                                 t1: Clock, t2: Clock, t3: Clock, t4: Clock, participant: string, room: string)
    requires !IsBlank(first) && !IsBlank(second) && !IsBlank(final)
    ensures SessionActions(InterimsThenFinal(first, second, final, t1, t2, t3, t4), participant, room) ==
      [ Publish(Transcription(first, false, participant, t1.iso, None)),
        Publish(Transcription(second, false, participant, t2.iso, None)),
        Publish(Transcription(final, true, participant, t3.iso, None)),
        Save(TranscriptFileName(room, t3.day), TranscriptEntry(t3.entryIso, participant, final, room)) ]
  {
    var e0 := SpeechEvent(InterimTranscript, [Alternative(first, None)], t1);
    var e1 := SpeechEvent(InterimTranscript, [Alternative(second, None)], t2);
    var e2 := SpeechEvent(FinalTranscript, [Alternative(final, None)], t3);
    var e3 := SpeechEvent(EndOfSpeech, [], t4);
    SessionActionsOfFour(e0, e1, e2, e3, participant, room);
    InterimEventActions(first, t1, participant, room);
    InterimEventActions(second, t2, participant, room);
    FinalEventActions(final, t3, participant, room);
  }

  lemma SessionActionsOfFour(e0: SpeechEvent, e1: SpeechEvent, e2: SpeechEvent, e3: SpeechEvent, participant: string, room: string)
    ensures SessionActions([e0, e1, e2, e3], participant, room) ==
      EventActions(e0, participant, room) + EventActions(e1, participant, room)
      + EventActions(e2, participant, room) + EventActions(e3, participant, room)
  {
    var s1 := [e0];
    var s2 := s1 + [e1];
    var s3 := s2 + [e2];
    assert SessionActions(s1, participant, room) == EventActions(e0, participant, room) by {
      assert s1[..0] == [];
    }
    SessionActionsAppend(s1, e1, participant, room);
    SessionActionsAppend(s2, e2, participant, room);
    SessionActionsAppend(s3, e3, participant, room);
    assert s3 + [e3] == [e0, e1, e2, e3];
  }

  lemma SessionActionsAppend(events: seq<SpeechEvent>, e: SpeechEvent, participant: string, room: string)
    ensures SessionActions(events + [e], participant, room)
            == SessionActions(events, participant, room) + EventActions(e, participant, room)
  {
    assert (events + [e])[..|events|] == events;
  }

  lemma InterimEventActions(text: string, t: Clock, participant: string, room: string)
    requires !IsBlank(text)
    ensures EventActions(SpeechEvent(InterimTranscript, [Alternative(text, None)], t), participant, room) ==
      [Publish(Transcription(text, false, participant, t.iso, None))]
  {
  }

  lemma FinalEventActions(text: string, t: Clock, participant: string, room: string)
    requires !IsBlank(text)
    ensures EventActions(SpeechEvent(FinalTranscript, [Alternative(text, None)], t), participant, room) ==
      [ Publish(Transcription(text, true, participant, t.iso, None)),
        Save(TranscriptFileName(room, t.day), TranscriptEntry(t.entryIso, participant, text, room)) ]
  {
  }

  /** What a room and the transcripts directory see of such a session: three
      messages (two interim, one final) and one saved entry with the final
      text. */
  lemma InterimsThenFinalEffects(first: string, second: string, final: string,
                                 t1: Clock, t2: Clock, t3: Clock, t4: Clock, participant: string, room: string)
    requires !IsBlank(first) && !IsBlank(second) && !IsBlank(final)
    ensures var acts := SessionActions(InterimsThenFinal(first, second, final, t1, t2, t3, t4), participant, room);
      && Published(acts) == [Transcription(first, false, participant, t1.iso, None),
                             Transcription(second, false, participant, t2.iso, None),
                             Transcription(final, true, participant, t3.iso, None)]
      && SavedTo(acts, TranscriptFileName(room, t3.day)) == [TranscriptEntry(t3.entryIso, participant, final, room)]
  {
    InterimsThenFinalActions(first, second, final, t1, t2, t3, t4, participant, room);
    var file := TranscriptFileName(room, t3.day);
    var p1 := Publish(Transcription(first, false, participant, t1.iso, None));
    var p2 := Publish(Transcription(second, false, participant, t2.iso, None));
    var p3 := Publish(Transcription(final, true, participant, t3.iso, None));
    var s4 := Save(file, TranscriptEntry(t3.entryIso, participant, final, room));
    var acts := [p1, p2, p3, s4];
    assert acts[..3] == [p1, p2, p3];
    assert [p1, p2, p3][..2] == [p1, p2];
    assert [p1, p2][..1] == [p1];
    assert [p1][..0] == [];
    assert Published([p1]) == [p1.message] && SavedTo([p1], file) == [];
    assert Published([p1, p2]) == [p1.message, p2.message] && SavedTo([p1, p2], file) == [];
    assert Published([p1, p2, p3]) == [p1.message, p2.message, p3.message] && SavedTo([p1, p2, p3], file) == [];
  }

  /** The session of "alice" saying "hel", "hello", then "hello world". */
  lemma AliceScenario(t1: Clock, t2: Clock, t3: Clock, t4: Clock, room: string)
    ensures var acts := SessionActions(InterimsThenFinal("hel", "hello", "hello world", t1, t2, t3, t4), "alice", room);
      && |Published(acts)| == 3
      && SavedTo(acts, TranscriptFileName(room, t3.day)) == [TranscriptEntry(t3.entryIso, "alice", "hello world", room)]
  {
    NonBlank("hel", 0);
    NonBlank("hello", 0);
    NonBlank("hello world", 0);
    InterimsThenFinalEffects("hel", "hello", "hello world", t1, t2, t3, t4, "alice", room);
  }

  lemma NonBlank(s: string, i: nat)
    requires i < |s| && !IsSpace(s[i])
    ensures !IsBlank(s)
  {
    BlankIffAllSpace(s);
  }

  // ---------------------------------------------------------------------------
  // Frame forwarding

  datatype StreamCall = PushFrame(frame: AudioFrame) | EndInput

  /* The calls a speech stream receives from `push_audio_frames`. */
  function FramePushes(frames: seq<AudioFrame>): (r: seq<StreamCall>)
    ensures |r| == |frames| && forall i :: 0 <= i < |r| ==> r[i] == PushFrame(frames[i])
  {
    seq(|frames|, i requires 0 <= i < |frames| => PushFrame(frames[i]))
  }

  /* The frames among the calls, in order. */
  function FramesOf(calls: seq<StreamCall>): seq<AudioFrame>
  {
    if calls == [] then []
    else FramesOf(calls[..|calls| - 1]) + (if calls[|calls| - 1].PushFrame? then [calls[|calls| - 1].frame] else [])
  }

  /* How many times `end_input` was called. */
  function EndInputCount(calls: seq<StreamCall>): nat
  {
    if calls == [] then 0
    else EndInputCount(calls[..|calls| - 1]) + (if calls[|calls| - 1].EndInput? then 1 else 0)
  }

  /** Forwarding hands the engine exactly the track's frames in arrival order
      and closes its input exactly once, after the last frame. */
  lemma {:induction false} ForwardingDeliversFrames(frames: seq<AudioFrame>)
    ensures FramesOf(FramePushes(frames) + [EndInput]) == frames
    ensures EndInputCount(FramePushes(frames) + [EndInput]) == 1
  {
    var calls := FramePushes(frames) + [EndInput];
    assert calls[..|calls| - 1] == FramePushes(frames);
    PushesCarryFrames(frames);
  }

  lemma {:induction false} PushesCarryFrames(frames: seq<AudioFrame>)
    ensures FramesOf(FramePushes(frames)) == frames
    ensures EndInputCount(FramePushes(frames)) == 0
  {
    if frames != [] {
      var p := frames[..|frames| - 1];
      assert FramePushes(frames)[..|frames| - 1] == FramePushes(p);
      PushesCarryFrames(p);
    }
  }

  /* The Deepgram speech stream, seen through the calls it receives. */
  class SpeechStream {
    var calls: seq<StreamCall>

    constructor ()
      ensures calls == []
    {
      calls := [];
    }

    method PushFrame(frame: AudioFrame)
      modifies this
      ensures calls == old(calls) + [StreamCall.PushFrame(frame)]
    {
      calls := calls + [StreamCall.PushFrame(frame)];
    }

    method EndInput()
      modifies this
      ensures calls == old(calls) + [StreamCall.EndInput]
    {
      calls := calls + [StreamCall.EndInput];
    }
  }

  /** `push_audio_frames`: every frame in arrival order, then `end_input`. */
  method PushAudioFrames(stream: SpeechStream, frames: seq<AudioFrame>)
    modifies stream
    ensures stream.calls == old(stream.calls) + FramePushes(frames) + [EndInput]
  {
    for i := 0 to |frames|
      invariant stream.calls == old(stream.calls) + FramePushes(frames[..i])
    {
      assert FramePushes(frames[..i + 1]) == FramePushes(frames[..i]) + [StreamCall.PushFrame(frames[i])];
      stream.PushFrame(frames[i]);
    }
    assert frames[..|frames|] == frames;
    stream.EndInput();
  }

  // ---------------------------------------------------------------------------
  // Sessions started from a participant's publications

  /* The actions of one track's session when the registry holds `registry`
     at its start: none for a track that is not audio or is already being
     processed. */
  function TrackActions(participant: Participant, track: Track, registry: set<string>,
                        engine: string -> EngineRun, room: string): seq<Action>
  {
    if track.kind == KindAudio && TrackId(participant, track) !in registry then
      SessionActions(Handled(engine(TrackId(participant, track))), participant.identity, room)
    else []
  }

  /* The actions one publication contributes to `process_participant_tracks`:
     only a subscribed audio track starts a session. */
  function PublicationStep(participant: Participant, pub: Publication, registry: set<string>,
                           engine: string -> EngineRun, room: string): seq<Action>
  {
    if pub.track.Some? then TrackActions(participant, pub.track.value, registry, engine, room) else []
  }

  /* The actions of `process_participant_tracks` over some publications:
     the sessions run one after the other, and each leaves the registry as it
     found it. */
  function PublicationActions(participant: Participant, pubs: seq<Publication>, registry: set<string>,
                              engine: string -> EngineRun, room: string): seq<Action>
  {
    if pubs == [] then []
    else
      PublicationActions(participant, pubs[..|pubs| - 1], registry, engine, room)
        + PublicationStep(participant, pubs[|pubs| - 1], registry, engine, room)
  }

  lemma PublicationActionsSnoc(participant: Participant, pubs: seq<Publication>, i: nat, registry: set<string>,
                               engine: string -> EngineRun, room: string)
    requires i < |pubs|
    ensures PublicationActions(participant, pubs[..i + 1], registry, engine, room)
            == PublicationActions(participant, pubs[..i], registry, engine, room)
               + PublicationStep(participant, pubs[i], registry, engine, room)
  {
    assert pubs[..i + 1][..i] == pubs[..i];
  }

  /* The actions of the startup scan over the participants already in the room. */
  function RoomActions(participants: seq<Participant>, registry: set<string>,
                       engine: string -> EngineRun, room: string): seq<Action>
  {
    if participants == [] then []
    else
      var last := participants[|participants| - 1];
      RoomActions(participants[..|participants| - 1], registry, engine, room)
        + PublicationActions(last, last.publications, registry, engine, room)
  }
  lemma RoomActionsSnoc(participants: seq<Participant>, i: nat, registry: set<string>,
                        engine: string -> EngineRun, room: string)
    requires i < |participants|
    ensures RoomActions(participants[..i + 1], registry, engine, room)
            == RoomActions(participants[..i], registry, engine, room)
               + PublicationActions(participants[i], participants[i].publications, registry, engine, room)
  {
    assert participants[..i + 1][..i] == participants[..i];
  }


  // ---------------------------------------------------------------------------
  // The agent

  class TranscriptionAgent {
    const roomName: string
    /* The ids of the tracks with a running session. */
    var processingTracks: set<string>
    /* Every data message published to the room, in order. */
    var published: seq<DataMessage>
    /* The transcripts directory. */
    var transcripts: Store

    /* The agent once connected to a room. */
    constructor (roomName: string, transcripts: Store)
      ensures this.roomName == roomName && this.transcripts == transcripts
      ensures processingTracks == {} && published == []
    {
      this.roomName := roomName;
      this.transcripts := transcripts;
      processingTracks := {};
      published := [];
    }

    /** `send_transcription`: blank text is dropped; otherwise one
        transcription message is published. */
    method SendTranscription(text: string, isFinal: bool, participant: string, confidence: Option<real>, now: Clock)
      modifies this`published
      ensures IsBlank(text) ==> published == old(published)
      ensures published == old(published) + Published(SendActions(text, isFinal, participant, confidence, now))
    {
      if IsBlank(text) {
        return;
      }
      published := published + [Transcription(text, isFinal, participant, now.iso, confidence)];
      assert [Publish(Transcription(text, isFinal, participant, now.iso, confidence))][..0] == [];
    }

    /** `save_transcript`: blank text is dropped; otherwise the file of this
        room and day is read (missing or undecodable counts as empty), one
        entry is appended and the whole list is written back. */
    method SaveTranscript(text: string, participant: string, now: Clock)
      modifies this`transcripts
      ensures IsBlank(text) ==> transcripts == old(transcripts)
      ensures transcripts == SaveAll(old(transcripts), SaveActions(roomName, text, participant, now))
    {
      if IsBlank(text) {
        return;
      }
      var file := TranscriptFileName(roomName, now.day);
      var entry := TranscriptEntry(now.entryIso, participant, text, roomName);
      var existing: seq<TranscriptEntry>;
      if file in transcripts {
        match transcripts[file]
        case Entries(es) => existing := es;
        case Unparsable => existing := [];
      } else {
        existing := [];
      }
      existing := existing + [entry];
      transcripts := transcripts[file := Entries(existing)];
      assert [Save(file, entry)][..0] == [];
    }

    /** One iteration of the loop of `process_stt_events`. */
    method HandleEvent(e: SpeechEvent, participant: string)
      modifies this`published, this`transcripts
      ensures published == old(published) + Published(EventActions(e, participant, roomName))
      ensures transcripts == SaveAll(old(transcripts), EventActions(e, participant, roomName))
    {
      match e.kind
      case InterimTranscript =>
        if |e.alternatives| > 0 {
          var text := e.alternatives[0].text;
          if !IsBlank(text) {
            SendTranscription(text, false, participant, e.alternatives[0].confidence, e.at);
          }
        }
      case FinalTranscript =>
        if |e.alternatives| > 0 {
          var text := e.alternatives[0].text;
          if !IsBlank(text) {
            SendTranscription(text, true, participant, e.alternatives[0].confidence, e.at);
            SaveTranscript(text, participant, e.at);
            var send := SendActions(text, true, participant, e.alternatives[0].confidence, e.at);
            var save := SaveActions(roomName, text, participant, e.at);
            PublishedConcat(send, save);
            SaveAllConcat(old(transcripts), send, save);
            assert Published(save) == [] by { assert save[..0] == []; }
            assert SaveAll(old(transcripts), send) == old(transcripts) by { assert send[..0] == []; }
          }
        }
      case EndOfSpeech =>
    }

    /** `process_stt_events`: the engine's events in order until the run ends
        or fails; returns how many events were handled. */
    method ProcessSttEvents(run: EngineRun, participant: string) returns (handled: nat)
      modifies this`published, this`transcripts
      ensures handled == |Handled(run)|
      ensures published == old(published) + Published(SessionActions(Handled(run), participant, roomName))
      ensures transcripts == SaveAll(old(transcripts), SessionActions(Handled(run), participant, roomName))
    {
      var events := Handled(run);
      ghost var published0, transcripts0 := published, transcripts;
      ghost var acts: seq<Action> := [];
      handled := 0;
      while handled < |events|
        invariant handled <= |events|
        invariant acts == SessionActions(events[..handled], participant, roomName)
        invariant published == published0 + Published(acts)
        invariant transcripts == SaveAll(transcripts0, acts)
      {
        ghost var step := EventActions(events[handled], participant, roomName);
        SessionActionsSnoc(events, handled, participant, roomName);
        ActionsCompose(published0, transcripts0, acts, step);
        HandleEvent(events[handled], participant);
        acts := acts + step;
        handled := handled + 1;
      }
      assert events[..handled] == events;
    }

    /** `process_audio_track`: a track already being processed is left alone;
        otherwise its id is added, its frames are forwarded while the
        engine's events are handled, and the id is removed again whether the
        session ends normally or fails. */
    method ProcessAudioTrack(track: Track, participant: Participant, run: EngineRun) returns (started: bool)
      modifies this`processingTracks, this`published, this`transcripts
      ensures started == (TrackId(participant, track) !in old(processingTracks))
      ensures processingTracks == old(processingTracks)
      ensures published == old(published) +
                (if started then Published(SessionActions(Handled(run), participant.identity, roomName)) else [])
      ensures transcripts == (if started then SaveAll(old(transcripts), SessionActions(Handled(run), participant.identity, roomName))
                              else old(transcripts))
    {
      var trackId := TrackId(participant, track);
      if trackId in processingTracks {
        return false;
      }
      started := true;
      processingTracks := processingTracks + {trackId};
      var sttStream := new SpeechStream();
      PushAudioFrames(sttStream, track.frames);
      var _ := ProcessSttEvents(run, participant.identity);
      processingTracks := processingTracks - {trackId};
    }

    /** `on_track_subscribed`: audio tracks start a session; others are ignored. */
    method OnTrackSubscribed(track: Track, participant: Participant, run: EngineRun)
      modifies this`processingTracks, this`published, this`transcripts
      ensures processingTracks == old(processingTracks)
      ensures var engine := (id: string) => run;
        && published == old(published) + Published(TrackActions(participant, track, old(processingTracks), engine, roomName))
        && transcripts == SaveAll(old(transcripts), TrackActions(participant, track, old(processingTracks), engine, roomName))
    {
      if track.kind == KindAudio {
        var _ := ProcessAudioTrack(track, participant, run);
      }
    }

    /** `on_track_unsubscribed`: the id of an audio track is discarded at
        once (absent ids are fine); other tracks change nothing. */
    method OnTrackUnsubscribed(track: Track, participant: Participant)
      modifies this`processingTracks
      ensures processingTracks == if track.kind == KindAudio then old(processingTracks) - {TrackId(participant, track)}
                                  else old(processingTracks)
    {
      if track.kind == KindAudio {
        var trackId := TrackId(participant, track);
        processingTracks := processingTracks - {trackId};
      }
    }

    /** `process_participant_tracks`: each subscribed audio track of the
        participant in turn. */
    method ProcessParticipantTracks(participant: Participant, engine: string -> EngineRun)
      modifies this`processingTracks, this`published, this`transcripts
      ensures processingTracks == old(processingTracks)
      ensures published == old(published) + Published(PublicationActions(participant, participant.publications, old(processingTracks), engine, roomName))
      ensures transcripts == SaveAll(old(transcripts), PublicationActions(participant, participant.publications, old(processingTracks), engine, roomName))
    {
      var pubs := participant.publications;
      ghost var registry := processingTracks;
      ghost var published0, transcripts0 := published, transcripts;
      ghost var acts: seq<Action> := [];
      for i := 0 to |pubs|
        invariant processingTracks == registry
        invariant acts == PublicationActions(participant, pubs[..i], registry, engine, roomName)
        invariant published == published0 + Published(acts)
        invariant transcripts == SaveAll(transcripts0, acts)
      {
        ghost var step := PublicationStep(participant, pubs[i], registry, engine, roomName);
        PublicationActionsSnoc(participant, pubs, i, registry, engine, roomName);
        ActionsCompose(published0, transcripts0, acts, step);
        ProcessPublication(participant, pubs[i], engine);
        acts := acts + step;
      }
      assert pubs[..|pubs|] == pubs;
    }

    /** One iteration of `process_participant_tracks`: a subscribed audio
        track is processed, anything else is skipped. */
    method ProcessPublication(participant: Participant, pub: Publication, engine: string -> EngineRun)
      modifies this`processingTracks, this`published, this`transcripts
      ensures processingTracks == old(processingTracks)
      ensures published == old(published) + Published(PublicationStep(participant, pub, old(processingTracks), engine, roomName))
      ensures transcripts == SaveAll(old(transcripts), PublicationStep(participant, pub, old(processingTracks), engine, roomName))
    {
      if pub.track.Some? && pub.track.value.kind == KindAudio {
        var track := pub.track.value;
        var _ := ProcessAudioTrack(track, participant, engine(TrackId(participant, track)));
      }
    }

    /** The startup scan of `entrypoint`: every participant already in the
        room, in turn. */
    method ProcessExistingParticipants(participants: seq<Participant>, engine: string -> EngineRun)
      modifies this`processingTracks, this`published, this`transcripts
      ensures processingTracks == old(processingTracks)
      ensures published == old(published) + Published(RoomActions(participants, old(processingTracks), engine, roomName))
      ensures transcripts == SaveAll(old(transcripts), RoomActions(participants, old(processingTracks), engine, roomName))
    {
      ghost var registry := processingTracks;
      ghost var published0, transcripts0 := published, transcripts;
      ghost var acts: seq<Action> := [];
      for i := 0 to |participants|
        invariant processingTracks == registry
        invariant acts == RoomActions(participants[..i], registry, engine, roomName)
        invariant published == published0 + Published(acts)
        invariant transcripts == SaveAll(transcripts0, acts)
      {
        ghost var step := PublicationActions(participants[i], participants[i].publications, registry, engine, roomName);
        RoomActionsSnoc(participants, i, registry, engine, roomName);
        ActionsCompose(published0, transcripts0, acts, step);
        ProcessParticipantTracks(participants[i], engine);
        acts := acts + step;
      }
      assert participants[..|participants|] == participants;
    }

    /** One tick of `send_status_updates`: the number of tracks being processed. */
    method SendStatusUpdate(now: Clock)
      modifies this`published
      ensures published == old(published) + [AgentStatus(|processingTracks|, now.iso)]
    {
      published := published + [AgentStatus(|processingTracks|, now.iso)];
    }
  }
}
