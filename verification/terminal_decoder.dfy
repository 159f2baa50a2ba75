/** The stateful decoder: a byte buffer and the time its leading ESC arrived. */
module TerminalDecoder {
  import opened Bytes
  import opened KeyDecoder
  import opened KeyTable

  /** Seconds after which a pending ESC counts as the Escape key. */
  const ESCAPE_TIMEOUT: real := 0.03

  class TerminalKeyDecoder {
    const sequences: map<seq<byte>, byte>
    const prefixes: set<seq<byte>>
    var buffer: seq<byte>
    var escapeStarted: Option<real>

    ghost predicate Tables() {
      IsTable(sequences) && forall raw :: raw in prefixes <==> KeyStart(raw)
    }

    /** Between calls the buffer is empty or the start of a key sequence, and the
        timer runs exactly in the second case. */
    ghost predicate Valid()
      reads this
    {
      && Tables() && (buffer == [] <==> escapeStarted.None?)
      && (buffer != [] ==> KeyStart(buffer) && buffer[0] == ESC)
    }

    constructor ()
      ensures Valid() && buffer == []
    {
      var m := BuildSequences();
      var p := BuildPrefixes(m);
      sequences, prefixes := m, p;
      buffer, escapeStarted := [], None;
    }

    /** The longest key sequence the buffer starts with. */
    method Complete() returns (len: nat)
      requires Tables()
      ensures len <= |buffer| && len == LongestKey(buffer, |buffer|)
    {
      len := |buffer|;
      while len > 0 && buffer[..len] !in sequences
        invariant len <= |buffer| && LongestKey(buffer, |buffer|) == LongestKey(buffer, len)
      {
        len := len - 1;
      }
    }

    /** One iteration of the loop: false when it breaks off to wait. The timer
        starts when an ESC reaches the front and stops when it is consumed. */
    method DecodeOne(force: bool, now: real) returns (event: Option<Event>)
      requires Tables() && buffer != [] && (buffer[0] != ESC ==> escapeStarted.None?)
      modifies this
      ensures Tables()
      ensures match NextStep(old(buffer), force)
        case Wait => event == None && buffer == old(buffer)
          && escapeStarted == (if old(escapeStarted).None? then Some(now) else old(escapeStarted))
        case Emit(e, used) => event == Some(e) && buffer == old(buffer)[used..] && escapeStarted == None
    {
      hide KeyScan, AltScan;
      if buffer[0] != ESC {
        event := Some(Ascii(Translate(buffer[0])));
        buffer := buffer[1..];
        return;
      }
      if escapeStarted.None? {
        escapeStarted := Some(now);
      }
      var raw := buffer;
      LoneEscapeWaits(raw);
      var len := Complete();
      if len > 0 {
        event := Some(Extended(sequences[raw[..len]]));
        buffer := buffer[len..];
        escapeStarted := None;
        return;
      }
      if raw in prefixes && !force {
        return None;
      }
      if |buffer| >= 2 && buffer[1] != BRACKET && buffer[1] != LETTER_O {
        var scan := AltScan(buffer[1]);
        if scan.Some? {
          event := Some(Extended(scan.value));
          buffer := buffer[2..];
          escapeStarted := None;
          return;
        }
      }
      if !force && (|buffer| == 1 || raw in prefixes) {
        assert false;
      }
      event := Some(Ascii(ESC));
      buffer := buffer[1..];
      escapeStarted := None;
    }

    method DecodeBuffer(force: bool, now: real) returns (events: seq<Event>)
      requires Tables() && (escapeStarted.Some? ==> buffer != [] && buffer[0] == ESC)
      modifies this
      ensures Valid()
      ensures (events, buffer) == Decode(old(buffer), force)
      ensures events == [] && old(escapeStarted).Some? ==> escapeStarted == old(escapeStarted)
      ensures buffer != [] && (events != [] || old(escapeStarted).None?) ==> escapeStarted == Some(now)
    {
      hide Decode, NextStep, KeyStart, IsKey, TerminalKeyDecoder.Tables;
      events := [];
      ghost var raw := buffer;
      while buffer != []
        invariant Tables() && (escapeStarted.Some? ==> buffer != [] && buffer[0] == ESC)
        invariant events + Decode(buffer, force).0 == Decode(raw, force).0
        invariant Decode(buffer, force).1 == Decode(raw, force).1
        invariant events == [] ==> buffer == raw && escapeStarted == old(escapeStarted)
        invariant events != [] ==> escapeStarted.None?
        decreases |buffer|
      {
        StepForm(buffer, force);
        var event := DecodeOne(force, now);
        if event.None? {
          assert events + [] == events;
          return;
        }
        EventAppended(events, event.value, Decode(buffer, force).0);
        events := events + [event.value];
      }
      NothingToDecode(force);
      assert events + [] == events;
    }

    /** Adds bytes and decodes what is complete. */
    method Feed(data: seq<byte>, now: real) returns (events: seq<Event>)
      requires Valid()
      modifies this
      ensures Valid()
      ensures (events, buffer) == Decode(old(buffer) + data, false)
    {
      buffer := buffer + data;
      events := DecodeBuffer(false, now);
    }

    /** Decodes a pending ESC as the Escape key once the timeout has passed. */
    method Flush(now: real) returns (events: seq<Event>)
      requires Valid()
      modifies this
      ensures Valid()
      ensures var expired := old(escapeStarted).Some? && now - old(escapeStarted).value >= 0.03;
        (events, buffer) == Decode(old(buffer), expired) && (expired ==> buffer == [])
    {
      var force := buffer != [] && buffer[0] == ESC
        && escapeStarted.Some? && now - escapeStarted.value >= ESCAPE_TIMEOUT;
      ForcedEmpties(buffer);
      events := DecodeBuffer(force, now);
    }
  }

  lemma StepForm(raw: seq<byte>, force: bool)
    requires raw != []
    ensures NextStep(raw, force).Wait? ==> Decode(raw, force) == ([], raw)
    ensures NextStep(raw, force).Emit? ==> var rest := Decode(raw[NextStep(raw, force).used..], force);
      Decode(raw, force) == ([NextStep(raw, force).event] + rest.0, rest.1)
    ensures NextStep(raw, force).Wait? ==> KeyStart(raw) && raw[0] == ESC
  {
    hide KeyScan, AltScan;
  }

  lemma EventAppended(events: seq<Event>, e: Event, rest: seq<Event>)
    ensures events + ([e] + rest) == (events + [e]) + rest
  {
  }

  lemma NothingToDecode(force: bool)
    ensures Decode([], force) == ([], [])
  {
  }
}
