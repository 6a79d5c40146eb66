/** Symbolic encoders of utils.h: a melody, given as the parsed
    (onset, duration, note) triplets of one transcription, becomes the integer
    token sequence that the alignment compares. The file reading around the
    encoders is not modelled; the encoders receive the triplets already parsed. */
module Encoders {

  /** One parsed triplet. The source reads all three as doubles; a note of 0
      marks an unvoiced (silent) event. */
  datatype Event = Event(onset: real, duration: real, note: real)

  /** The matching method selected on the command line ("default", "uds", "dtw"). */
  datatype MatchingMethod = Default | Uds | Dtw

  // Contour tokens, pushed into the `vector<int>` as their character codes.
  // Pitch direction:
  const Down: int := 'D' as int
  const Up: int := 'U' as int
  const Same: int := 'S' as int
  // Duration relation (note that "shorter" shares the code 'S' with "same"):
  const Shorter: int := 'S' as int
  const Longer: int := 'L' as int
  const Equal: int := 'E' as int

  predicate IsDirection(t: int) { t == Down || t == Up || t == Same }
  predicate IsDurationRelation(t: int) { t == Shorter || t == Longer || t == Equal }

  /** Direction from the remembered pitch `last` to `note`. */
  function Direction(last: real, note: real): (t: int)
    ensures IsDirection(t)
    ensures t == Up <==> last < note
    ensures t == Down <==> last > note
  {
    if last > note then Down else if last < note then Up else Same
  }

  /** Relation of `duration` to the remembered duration `last`. */
  function DurationRelation(last: real, duration: real): (t: int)
    ensures IsDurationRelation(t)
    ensures t == Longer <==> last < duration
    ensures t == Equal <==> last == duration
  {
    if last > duration then Shorter else if last < duration then Longer else Equal
  }

  /** The voiced events (note != 0), in input order. */
  function Voiced(events: seq<Event>): (v: seq<Event>)
    ensures |v| <= |events|
    ensures forall e :: e in events && e.note != 0.0 ==> e in v
  {
    if |events| == 0 then []
    else
      var init := events[..|events| - 1];
      var e := events[|events| - 1];
      assert events == init + [e];
      Voiced(init) + (if e.note != 0.0 then [e] else [])
  }

  // ---------------------------------------------------------------------------
  // convert_to_UDS

  /** `last_duration` after reading `events`: the duration of the last voiced
      event, or its initial value 0 when there is none. */
  function LastDuration(events: seq<Event>): real {
    if |events| == 0 then 0.0
    else if events[|events| - 1].note != 0.0 then events[|events| - 1].duration
    else LastDuration(events[..|events| - 1])
  }

  /** `last_note` after reading `events`. The source leaves it uninitialised; it
      is only read once `last_duration` is nonzero, i.e. after a voiced event has
      set it, so the initial 0 chosen here is never observed. */
  function LastNote(events: seq<Event>): real {
    if |events| == 0 then 0.0
    else if events[|events| - 1].note != 0.0 then events[|events| - 1].note
    else LastNote(events[..|events| - 1])
  }

  /** Contour tokens of `events`: every voiced event read while the remembered
      duration is nonzero appends a direction token and a duration token. */
  function UdsTokens(events: seq<Event>): (t: seq<int>)
    ensures |t| % 2 == 0
  {
    if |events| == 0 then []
    else
      var init := events[..|events| - 1];
      var e := events[|events| - 1];
      UdsTokens(init) +
        (if e.note != 0.0 && LastDuration(init) != 0.0
         then [Direction(LastNote(init), e.note), DurationRelation(LastDuration(init), e.duration)]
         else [])
  }

  /** convert_to_UDS: one pass with the remembered note and duration. */
  method ConvertToUds(events: seq<Event>) returns (tokens: seq<int>)
    ensures tokens == UdsTokens(events)
  {
    tokens := [];
    var lastDuration, lastNote := 0.0, 0.0;
    var i := 0;
    while i < |events|
      invariant 0 <= i <= |events|
      invariant tokens == UdsTokens(events[..i])
      invariant lastDuration == LastDuration(events[..i])
      invariant lastNote == LastNote(events[..i])
    {
      var e := events[i];
      assert events[..i + 1][..i] == events[..i];
      if e.note != 0.0 {
        if lastDuration != 0.0 {
          tokens := tokens + [if lastNote > e.note then Down else if lastNote < e.note then Up else Same];
          tokens := tokens + [if lastDuration > e.duration then Shorter else if lastDuration < e.duration then Longer else Equal];
        }
        lastDuration := e.duration;
        lastNote := e.note;
      }
      i := i + 1;
    }
    assert events[..i] == events;
  }

  /** Consecutive-pair transition tokens of a list of voiced events. */
  function Transitions(v: seq<Event>): (t: seq<int>)
    ensures |v| >= 1 ==> |t| == 2 * (|v| - 1)
    ensures |v| == 0 ==> t == []
  {
    if |v| < 2 then []
    else
      var n := |v|;
      Transitions(v[..n - 1]) +
        [Direction(v[n - 2].note, v[n - 1].note), DurationRelation(v[n - 2].duration, v[n - 1].duration)]
  }

  /** The remembered note and duration are those of the last voiced event. */
  lemma {:induction false} LastIsLastVoiced(events: seq<Event>)
    ensures |Voiced(events)| == 0 ==> LastDuration(events) == 0.0 && LastNote(events) == 0.0
    ensures |Voiced(events)| > 0 ==>
      LastDuration(events) == Voiced(events)[|Voiced(events)| - 1].duration &&
      LastNote(events) == Voiced(events)[|Voiced(events)| - 1].note
  {
    if |events| > 0 {
      LastIsLastVoiced(events[..|events| - 1]);
    }
  }

  /** The contour output has even length, and it alternates: a direction token at
      every even position and a duration token at every odd one. */
  lemma {:induction false} UdsAlternates(events: seq<Event>)
    ensures |UdsTokens(events)| % 2 == 0
    ensures forall k :: 0 <= k < |UdsTokens(events)| ==>
      if k % 2 == 0 then IsDirection(UdsTokens(events)[k]) else IsDurationRelation(UdsTokens(events)[k])
  {
    if |events| > 0 {
      UdsAlternates(events[..|events| - 1]);
    }
  }

  /** Unvoiced events have no effect on the contour encoding. */
  lemma {:induction false} UdsIgnoresSilence(events: seq<Event>)
    ensures UdsTokens(events) == UdsTokens(Voiced(events))
    ensures LastDuration(events) == LastDuration(Voiced(events))
    ensures LastNote(events) == LastNote(Voiced(events))
  {
    if |events| > 0 {
      var init := events[..|events| - 1];
      var e := events[|events| - 1];
      UdsIgnoresSilence(init);
      if e.note != 0.0 {
        var v := Voiced(init) + [e];
        assert Voiced(events) == v;
        assert v[..|v| - 1] == Voiced(init);
        assert v[|v| - 1] == e;
        assert UdsTokens(v) == UdsTokens(Voiced(init)) +
          (if LastDuration(Voiced(init)) != 0.0
           then [Direction(LastNote(Voiced(init)), e.note), DurationRelation(LastDuration(Voiced(init)), e.duration)]
           else []);
      } else {
        assert Voiced(events) == Voiced(init);
      }
    }
  }

  /** When every voiced event has a nonzero duration, the contour encoding is
      exactly the transition tokens of consecutive voiced events: n voiced
      events give 2*(n-1) tokens, and pair k compares voiced events k and k+1. */
  lemma {:induction false} UdsIsTransitions(events: seq<Event>)
    requires forall e :: e in events && e.note != 0.0 ==> e.duration != 0.0
    ensures UdsTokens(events) == Transitions(Voiced(events))
  {
    if |events| > 0 {
      var init := events[..|events| - 1];
      var e := events[|events| - 1];
      assert forall x :: x in init ==> x in events;
      UdsIsTransitions(init);
      LastIsLastVoiced(init);
      if e.note != 0.0 {
        var v := Voiced(init) + [e];
        var n := |v|;
        assert Voiced(events) == v;
        assert v[..n - 1] == Voiced(init);
        if n >= 2 {
          var w := Voiced(init)[n - 2];
          VoicedMembers(init, n - 2);
          assert w.duration != 0.0;
          assert v[n - 2] == w && v[n - 1] == e;
        }
      } else {
        assert Voiced(events) == Voiced(init);
      }
    }
  }

  /** Every voiced event is an event of the input with a nonzero note. */
  lemma {:induction false} VoicedMembers(events: seq<Event>, k: nat)
    requires k < |Voiced(events)|
    ensures Voiced(events)[k] in events && Voiced(events)[k].note != 0.0
  {
    var init := events[..|events| - 1];
    if k < |Voiced(init)| {
      VoicedMembers(init, k);
      assert Voiced(events)[k] == Voiced(init)[k];
    }
  }

  /** Token pair k of the transitions compares voiced events k and k+1. */
  lemma {:induction false} TransitionsAt(v: seq<Event>, k: nat)
    requires k + 1 < |v|
    ensures Transitions(v)[2 * k] == Direction(v[k].note, v[k + 1].note)
    ensures Transitions(v)[2 * k + 1] == DurationRelation(v[k].duration, v[k + 1].duration)
  {
    var n := |v|;
    if k + 2 < n {
      TransitionsAt(v[..n - 1], k);
    }
  }

  // ---------------------------------------------------------------------------
  // convert_to_MIDI

  /** C++ conversion of a double to int: truncation toward zero. */
  function Truncate(x: real): (r: int)
    ensures x >= 0.0 ==> r as real <= x < r as real + 1.0
    ensures x < 0.0 ==> r as real - 1.0 < x <= r as real
  {
    if x >= 0.0 then x.Floor else -((-x).Floor)
  }

  /** Absolute-pitch tokens: the truncated notes of the voiced events. */
  function MidiTokens(events: seq<Event>): (t: seq<int>)
    ensures |t| == |Voiced(events)|
    ensures forall k :: 0 <= k < |t| ==> t[k] == Truncate(Voiced(events)[k].note)
  {
    if |events| == 0 then []
    else
      var init := events[..|events| - 1];
      var e := events[|events| - 1];
      MidiTokens(init) + (if e.note != 0.0 then [Truncate(e.note)] else [])
  }

  /** convert_to_MIDI: push every nonzero note. */
  method ConvertToMidi(events: seq<Event>) returns (tokens: seq<int>)
    ensures tokens == MidiTokens(events)
  {
    tokens := [];
    var i := 0;
    while i < |events|
      invariant 0 <= i <= |events|
      invariant tokens == MidiTokens(events[..i])
    {
      assert events[..i + 1][..i] == events[..i];
      if events[i].note != 0.0 {
        tokens := tokens + [Truncate(events[i].note)];
      }
      i := i + 1;
    }
    assert events[..i] == events;
  }

  // ---------------------------------------------------------------------------
  // read_stream

  /** What read_stream leaves in the sequence for a method: it clears the
      sequence, then runs the method's encoder; "default" runs none. */
  function Encode(m: MatchingMethod, events: seq<Event>): (tokens: seq<int>)
    ensures m == Default ==> tokens == []
    ensures m == Uds ==> |tokens| % 2 == 0
    ensures m == Dtw ==> |tokens| == |Voiced(events)|
  {
    match m
    case Default => []
    case Uds => UdsTokens(events)
    case Dtw => MidiTokens(events)
  }

  /** read_stream, after the file has been opened and parsed. */
  method ReadStream(m: MatchingMethod, events: seq<Event>) returns (tokens: seq<int>)
    ensures tokens == Encode(m, events)
    ensures m == Default ==> tokens == []
    ensures m == Uds ==> |tokens| % 2 == 0
    ensures m == Dtw ==> |tokens| == |Voiced(events)|
  {
    tokens := [];
    if m == Uds {
      tokens := ConvertToUds(events);
      UdsAlternates(events);
    } else if m == Dtw {
      tokens := ConvertToMidi(events);
    }
  }
}
