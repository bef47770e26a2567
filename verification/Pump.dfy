/** From socket chunks to callbacks.

    The socket thread appends chunks to a queue; the drain thread takes them off one by one
    and feeds their bytes to the decoder; other threads may clear `bContinue` at any moment,
    and the drain thread copies it from the socket client whenever the queue is empty.
    Every one of these is a step, and the steps interleave in any order.
  */
module Pump {
  import opened BitConverter
  import opened Encoding
  import opened Frames
  import opened Runs
  import opened Texts

  /** The shared state, and for the statements the history: all bytes received and decoded,
      all messages decoded and handed on, for each message decoded whether `bContinue` was
      set when it was, and whether the drain thread has ever set `bContinue` again after
      somebody had cleared it. */
  datatype Pump = Pump(
    bContinue: bool, sockContinue: bool, queue: seq<seq<byte>>, buff: seq<byte>, decoder: Decoder, running: bool,
    received: seq<byte>, consumed: seq<byte>, delivered: seq<Message>, heard: seq<bool>, passed: seq<Message>,
    rearmed: bool)

  datatype Action =
    | Arrive(chunk: seq<byte>) | Poll | DecodeByte | Reload | Return | Clear | SocketStops

  function Start(): Pump {
    Pump(true, true, [], [], NewDecoder(true), true, [], [], [], [], [], false)
  }

  predicate Enabled(p: Pump, a: Action) {
    match a
    case Arrive(_) => true
    case Poll => p.running && p.buff == [] && p.queue != [] && p.bContinue
    case DecodeByte => p.running && p.buff != []
    case Reload => p.running && p.buff == [] && p.queue == []
    case Return => p.running && p.buff == [] && !p.bContinue
    case Clear => true
    case SocketStops => true
  }

  function Copies(n: nat, flag: bool): seq<bool> {
    seq(n, i => flag)
  }

  function Next(p: Pump, a: Action): Pump
    requires Enabled(p, a)
  {
    match a
    case Arrive(chunk) => p.(queue := p.queue + [chunk], received := p.received + chunk)
    case Poll => p.(buff := p.queue[0], queue := p.queue[1..])
    case DecodeByte =>
      var (d, o) := Step(p.decoder, p.buff[0]);
      p.(buff := p.buff[1..], consumed := p.consumed + [p.buff[0]], decoder := d,
         running := !o.Fault?,
         delivered := p.delivered + Reports(o),
         heard := p.heard + Copies(|Reports(o)|, p.bContinue),
         passed := if p.bContinue then p.passed + Reports(o) else p.passed)
    case Reload => p.(bContinue := p.sockContinue, rearmed := p.rearmed || (!p.bContinue && p.sockContinue))
    case Return => p.(running := false)
    case Clear => p.(bContinue := false)
    case SocketStops => p.(sockContinue := false)
  }

  /** A step that is not possible leaves everything as it is. */
  function AfterAll(p: Pump, actions: seq<Action>): Pump
    decreases |actions|
  {
    if actions == [] then p
    else AfterAll(if Enabled(p, actions[0]) then Next(p, actions[0]) else p, actions[1..])
  }

  // ---------- what every run keeps ----------

  /** No byte is lost, repeated or moved. */
  predicate BytesKept(p: Pump) {
    p.received == p.consumed + p.buff + Flatten(p.queue)
  }

  /** The decoder is where decoding the consumed bytes as one string would have put it. */
  predicate DecodesOneString(p: Pump) {
    var r := Decode(NewDecoder(true), p.consumed);
    r.state == p.decoder && r.out == p.delivered && (p.running ==> !r.faulted)
  }

  /** The places of the messages that were decoded with the flag set, from place n on. */
  function PlacesFrom(n: nat, heard: seq<bool>): seq<nat>
    decreases |heard|
  {
    if heard == [] then [] else (if heard[0] then [n] else []) + PlacesFrom(n + 1, heard[1..])
  }

  /** Where among the messages decoded those handed on were. */
  function PassedAt(p: Pump): seq<nat> {
    PlacesFrom(0, p.heard)
  }

  /** The messages at some places. */
  function At(messages: seq<Message>, places: seq<nat>): seq<Message>
    requires forall i :: 0 <= i < |places| ==> places[i] < |messages|
  {
    seq(|places|, i requires 0 <= i < |places| => messages[places[i]])
  }

  /** What was handed on is what was decoded with the flag set, in order. */
  predicate PassesHeard(p: Pump) {
    && |p.heard| == |p.delivered|
    && (forall i :: 0 <= i < |PassedAt(p)| ==> PassedAt(p)[i] < |p.delivered|)
    && p.passed == At(p.delivered, PassedAt(p))
    && (!p.rearmed && p.bContinue ==> forall i :: 0 <= i < |p.heard| ==> p.heard[i])
    && (!p.rearmed ==> NoneAfterUnheard(p.heard))
  }

  /** No message was decoded with the flag cleared before one decoded with it set. */
  predicate NoneAfterUnheard(heard: seq<bool>) {
    forall i, j :: 0 <= i < j < |heard| && heard[j] ==> heard[i]
  }

  lemma {:induction false} PlacesWithin(n: nat, heard: seq<bool>)
    ensures forall i :: 0 <= i < |PlacesFrom(n, heard)| ==> n <= PlacesFrom(n, heard)[i] < n + |heard|
    decreases |heard|
  {
    if heard != [] {
      PlacesWithin(n + 1, heard[1..]);
    }
  }

  lemma {:induction false} PlacesOneMore(n: nat, heard: seq<bool>, flag: bool)
    ensures PlacesFrom(n, heard + [flag]) == PlacesFrom(n, heard) + if flag then [n + |heard|] else []
    decreases |heard|
  {
    if heard == [] {
      assert [flag][1..] == [] && heard + [flag] == [flag];
      assert PlacesFrom(n + 1, []) == [];
    } else {
      var rest, more := heard[1..], heard + [flag];
      assert more[1..] == rest + [flag] && more[0] == heard[0];
      PlacesOneMore(n + 1, rest, flag);
      Grouped(if heard[0] then [n] else [], PlacesFrom(n + 1, rest), if flag then [n + |heard|] else []);
    }
  }

  lemma HearOne(delivered: seq<Message>, heard: seq<bool>, x: Message, flag: bool)
    requires |heard| == |delivered|
    ensures var places, more := PlacesFrom(0, heard), PlacesFrom(0, heard + [flag]);
      && (forall i :: 0 <= i < |places| ==> places[i] < |delivered|)
      && (forall i :: 0 <= i < |more| ==> more[i] < |delivered + [x]|)
      && At(delivered + [x], more) == At(delivered, places) + if flag then [x] else []
  {
    PlacesOneMore(0, heard, flag);
    PlacesWithin(0, heard);
    PlacesWithin(0, heard + [flag]);
    hide PlacesFrom;
  }

  lemma HeardOneMore(heard: seq<bool>, flag: bool)
    requires NoneAfterUnheard(heard) && (flag ==> forall i :: 0 <= i < |heard| ==> heard[i])
    ensures NoneAfterUnheard(heard + [flag])
  {
    assert forall i :: 0 <= i < |heard| ==> (heard + [flag])[i] == heard[i];
  }

  lemma StepKeepsHeard(p: Pump, a: Action)
    requires PassesHeard(p) && Enabled(p, a)
    ensures PassesHeard(Next(p, a))
  {
    if a.DecodeByte? {
      var o := Step(p.decoder, p.buff[0]).1;
      hide Step, PlacesFrom, At, NoneAfterUnheard;
      if o.Delivered? {
        assert Copies(1, p.bContinue) == [p.bContinue];
        HearOne(p.delivered, p.heard, o.message, p.bContinue);
        if !p.rearmed {
          HeardOneMore(p.heard, p.bContinue);
        }
        assert p.passed + [] == p.passed;
      } else {
        assert Copies(0, p.bContinue) == [];
        assert p.heard + [] == p.heard && p.delivered + [] == p.delivered && p.passed + [] == p.passed;
      }
    } else {
      hide Step, PlacesFrom, At, NoneAfterUnheard;
    }
  }

  lemma StepKeepsBytes(p: Pump, a: Action)
    requires BytesKept(p) && Enabled(p, a)
    ensures BytesKept(Next(p, a))
  {
    if p.queue != [] {
      assert Flatten(p.queue) == p.queue[0] + Flatten(p.queue[1..]);
    }
    hide Step, Flatten;
    match a
    case Arrive(chunk) =>
      FlattenOneMore(p.queue, chunk);
      BehindTheRest(p.consumed, p.buff, Flatten(p.queue), chunk);
    case Poll => OutOfTheQueue(p.consumed, p.queue[0], Flatten(p.queue[1..]));
    case DecodeByte => OutOfHand(p.consumed, p.buff, Flatten(p.queue));
    case _ =>
  }

  lemma BehindTheRest(consumed: seq<byte>, buff: seq<byte>, queued: seq<byte>, chunk: seq<byte>)
    ensures consumed + buff + queued + chunk == consumed + buff + (queued + chunk)
  {}

  lemma OutOfTheQueue(consumed: seq<byte>, chunk: seq<byte>, queued: seq<byte>)
    ensures consumed + [] + (chunk + queued) == consumed + chunk + queued
  {}

  lemma OutOfHand(consumed: seq<byte>, buff: seq<byte>, queued: seq<byte>)
    requires buff != []
    ensures consumed + buff + queued == consumed + [buff[0]] + buff[1..] + queued
  {
    assert buff == [buff[0]] + buff[1..];
  }

  lemma StepKeepsDecoding(p: Pump, a: Action)
    requires DecodesOneString(p) && Enabled(p, a)
    ensures DecodesOneString(Next(p, a))
  {
    hide Step;
    if a.DecodeByte? {
      var b := p.buff[0];
      RunAppend<Decoder, byte, Message>(Step, NewDecoder(true), p.consumed, [b]);
      RunOne<Decoder, byte, Message>(Step, p.decoder, b);
    }
  }

  /** In every interleaving the bytes consumed, in hand and queued are the bytes received,
      and the decoder and its messages are those of the consumed bytes taken as one string:
      chunk boundaries never matter. */
  lemma {:induction false} EveryRunKeeps(p: Pump, actions: seq<Action>)
    requires BytesKept(p) && DecodesOneString(p) && PassesHeard(p)
    ensures var q := AfterAll(p, actions); BytesKept(q) && DecodesOneString(q) && PassesHeard(q)
    decreases |actions|
  {
    hide Next, Enabled, BytesKept, DecodesOneString, PassesHeard;
    if actions != [] {
      if Enabled(p, actions[0]) {
        StepKeepsBytes(p, actions[0]);
        StepKeepsDecoding(p, actions[0]);
        StepKeepsHeard(p, actions[0]);
        EveryRunKeeps(Next(p, actions[0]), actions[1..]);
      } else {
        EveryRunKeeps(p, actions[1..]);
      }
    }
  }

  lemma RunsFromStart(actions: seq<Action>)
    ensures var q := AfterAll(Start(), actions); BytesKept(q) && DecodesOneString(q) && PassesHeard(q)
  {
    hide Step;
    EveryRunKeeps(Start(), actions);
  }

  // ---------- chunks ----------

  /** Two runs that received the same bytes, in whatever chunks and at whatever times, have
      decoded the same messages, as far as each has come. */
  lemma ChunkingOnlyDelays(actions: seq<Action>, others: seq<Action>)
    ensures var p, q := AfterAll(Start(), actions), AfterAll(Start(), others);
      p.received == q.received && |p.consumed| <= |q.consumed| ==> p.delivered <= q.delivered
  {
    RunsFromStart(actions);
    RunsFromStart(others);
    hide AfterAll, Step, PassesHeard;
    var p, q := AfterAll(Start(), actions), AfterAll(Start(), others);
    if p.received == q.received && |p.consumed| <= |q.consumed| {
      var n := |p.consumed|;
      assert p.received[..n] == p.consumed && q.received[..n] == q.consumed[..n];
      assert q.consumed == p.consumed + q.consumed[n..];
      RunAppend<Decoder, byte, Message>(Step, NewDecoder(true), p.consumed, q.consumed[n..]);
    }
  }

  /** If both have emptied their queues and decoded everything with the flag set, they have
      made the same callbacks: those of decoding the bytes as one string. */
  lemma ChunkingIsInvisible(actions: seq<Action>, others: seq<Action>)
    requires var p, q := AfterAll(Start(), actions), AfterAll(Start(), others);
      && p.received == q.received
      && p.queue == [] && q.queue == [] && p.buff == [] && q.buff == []
      && AllHeard(p.heard) && AllHeard(q.heard)
    ensures AfterAll(Start(), actions).passed == AfterAll(Start(), others).passed
      == Decode(NewDecoder(true), AfterAll(Start(), actions).received).out
  {
    RunsFromStart(actions);
    RunsFromStart(others);
    var p, q := AfterAll(Start(), actions), AfterAll(Start(), others);
    AllHeardAllPassed(p);
    AllHeardAllPassed(q);
    hide AfterAll, Decode, PassesHeard, AllHeard;
    assert p.consumed == p.consumed + [] + [] && q.consumed == q.consumed + [] + [];
  }

  predicate AllHeard(heard: seq<bool>) {
    forall i :: 0 <= i < |heard| ==> heard[i]
  }

  lemma {:induction false} PlacesWhenAllHeard(n: nat, heard: seq<bool>)
    requires AllHeard(heard)
    ensures |PlacesFrom(n, heard)| == |heard|
    ensures forall i :: 0 <= i < |heard| ==> PlacesFrom(n, heard)[i] == n + i
    decreases |heard|
  {
    if heard != [] {
      assert AllHeard(heard[1..]);
      PlacesWhenAllHeard(n + 1, heard[1..]);
    }
  }

  lemma AllHeardAllPassed(p: Pump)
    requires PassesHeard(p) && AllHeard(p.heard)
    ensures p.passed == p.delivered
  {
    PlacesWhenAllHeard(0, p.heard);
  }

  // ---------- when the callbacks are a beginning of the messages ----------

  /** The messages handed on are the first ones, none left out. */
  predicate NoneSkipped(places: seq<nat>) {
    forall i :: 0 <= i < |places| ==> places[i] == i
  }

  lemma NotFromBoth(n: nat, places: seq<nat>)
    ensures (forall i :: 0 <= i < |places| ==> places[i] == n + i) && (forall i :: 0 <= i < |places| ==> n + 1 <= places[i])
      ==> places == []
  {
    assert places != [] ==> places[0] == places[..1][0];
  }

  lemma {:induction false} NoneSkippedThen(n: nat, heard: seq<bool>)
    requires forall i :: 0 <= i < |PlacesFrom(n, heard)| ==> PlacesFrom(n, heard)[i] == n + i
    ensures NoneAfterUnheard(heard)
    decreases |heard|
  {
    if heard != [] {
      var rest := heard[1..];
      var places, later := PlacesFrom(n, heard), PlacesFrom(n + 1, rest);
      assert forall i :: 0 <= i < |rest| ==> rest[i] == heard[i + 1];
      if heard[0] {
        assert places == [n] + later;
        assert forall i :: 0 <= i < |later| ==> later[i] == places[i + 1];
        NoneSkippedThen(n + 1, rest);
        assert forall j :: 0 < j < |heard| ==> heard[j] == rest[j - 1];
      } else {
        PlacesWithin(n + 1, rest);
        assert places == later;
        NotFromBoth(n, places);
        NoPlaces(n + 1, rest);
        assert forall j :: 0 < j < |heard| ==> heard[j] == rest[j - 1];
      }
    }
  }

  lemma {:induction false} ThenNoneSkipped(n: nat, heard: seq<bool>)
    requires NoneAfterUnheard(heard)
    ensures forall i :: 0 <= i < |PlacesFrom(n, heard)| ==> PlacesFrom(n, heard)[i] == n + i
    decreases |heard|
  {
    if heard != [] {
      var rest := heard[1..];
      assert forall i :: 0 <= i < |rest| ==> rest[i] == heard[i + 1];
      ThenNoneSkipped(n + 1, rest);
      if !heard[0] && PlacesFrom(n + 1, rest) != [] {
        SomePlace(n + 1, rest);
      }
    }
  }

  lemma {:induction false} NoPlaces(n: nat, heard: seq<bool>)
    requires PlacesFrom(n, heard) == []
    ensures forall i :: 0 <= i < |heard| ==> !heard[i]
    decreases |heard|
  {
    if heard != [] {
      NoPlaces(n + 1, heard[1..]);
    }
  }

  lemma {:induction false} SomePlace(n: nat, heard: seq<bool>)
    requires PlacesFrom(n, heard) != []
    ensures exists i :: 0 <= i < |heard| && heard[i]
    decreases |heard|
  {
    if !heard[0] {
      SomePlace(n + 1, heard[1..]);
      var i :| 0 <= i < |heard[1..]| && heard[1..][i];
      assert heard[i + 1];
    }
  }

  lemma PassedIsPrefix(p: Pump)
    requires PassesHeard(p) && NoneSkipped(PassedAt(p))
    ensures p.passed <= p.delivered
  {
    var places := PassedAt(p);
    hide PlacesFrom;
    if places != [] {
      assert places[|places| - 1] == |places| - 1;
    }
    assert p.passed == p.delivered[..|p.passed|];
  }

  /** In every run the messages handed on are the first ones decoded, none left out, exactly
      when no message was decoded with the flag cleared before one decoded with it set. */
  lemma PrefixIff(actions: seq<Action>)
    ensures var q := AfterAll(Start(), actions);
      && (NoneSkipped(PassedAt(q)) <==> NoneAfterUnheard(q.heard))
      && (NoneSkipped(PassedAt(q)) ==> q.passed <= q.delivered)
  {
    RunsFromStart(actions);
    var q := AfterAll(Start(), actions);
    if NoneAfterUnheard(q.heard) {
      ThenNoneSkipped(0, q.heard);
    }
    if NoneSkipped(PassedAt(q)) {
      NoneSkippedThen(0, q.heard);
      PassedIsPrefix(q);
    }
  }

  /** `bContinue` is only ever cleared after the socket client has stopped. */
  predicate StopsFirst(actions: seq<Action>, stopped: bool)
    decreases |actions|
  {
    actions == [] ||
    ((actions[0] == Clear ==> stopped) && StopsFirst(actions[1..], stopped || actions[0] == SocketStops))
  }

  lemma {:induction false} NeverRearmed(p: Pump, actions: seq<Action>)
    requires !p.rearmed && (p.sockContinue ==> p.bContinue)
    requires StopsFirst(actions, !p.sockContinue)
    ensures !AfterAll(p, actions).rearmed
    decreases |actions|
  {
    hide Step;
    if actions != [] {
      NeverRearmed(if Enabled(p, actions[0]) then Next(p, actions[0]) else p, actions[1..]);
    }
  }

  /** A manager that stops the socket client before it clears the flag skips no message. */
  lemma StoppingFirstSkipsNothing(actions: seq<Action>)
    requires StopsFirst(actions, false)
    ensures var q := AfterAll(Start(), actions); NoneSkipped(PassedAt(q)) && q.passed <= q.delivered
  {
    NeverRearmed(Start(), actions);
    RunsFromStart(actions);
    PrefixIff(actions);
    hide AfterAll, PlacesFrom, At;
  }

  // ---------- the flag set again ----------

  function Bytes(n: nat): seq<Action> {
    seq(n, i => DecodeByte)
  }

  lemma {:induction false} AfterAllAppend(p: Pump, a: seq<Action>, b: seq<Action>)
    ensures AfterAll(p, a + b) == AfterAll(AfterAll(p, a), b)
    decreases |a|
  {
    hide Next, Enabled;
    if a == [] {
      assert a + b == b;
    } else {
      assert (a + b)[1..] == a[1..] + b;
      AfterAllAppend(if Enabled(p, a[0]) then Next(p, a[0]) else p, a[1..], b);
    }
  }

  /** Some bytes of the chunk in hand have been decoded. */
  function Decoded(p: Pump, bytes: seq<byte>, rest: seq<byte>, decoder: Decoder, out: seq<Message>): Pump {
    p.(buff := rest, consumed := p.consumed + bytes, decoder := decoder, delivered := p.delivered + out,
       heard := p.heard + Copies(|out|, p.bContinue), passed := if p.bContinue then p.passed + out else p.passed)
  }

  lemma CopiesJoin(m: nat, n: nat, flag: bool)
    ensures Copies(m, flag) + Copies(n, flag) == Copies(m + n, flag)
  {}

  lemma DecodedTwice(
    p: Pump, s: seq<byte>, t: seq<byte>, d: Decoder, out: seq<Message>,
    u: seq<byte>, e: Decoder, more: seq<Message>)
    ensures Decoded(Decoded(p, s, t, d, out), t, u, e, more) == Decoded(p, s + t, u, e, out + more)
  {
    Grouped(p.consumed, s, t);
    Grouped(p.delivered, out, more);
    Grouped(p.passed, out, more);
    Grouped(p.heard, Copies(|out|, p.bContinue), Copies(|more|, p.bContinue));
    CopiesJoin(|out|, |more|, p.bContinue);
  }

  lemma DecodedNothing(p: Pump)
    ensures Decoded(p, [], p.buff, p.decoder, []) == p
  {
    assert p.heard + Copies(0, p.bContinue) == p.heard;
    assert p.consumed + [] == p.consumed && p.delivered + [] == p.delivered && p.passed + [] == p.passed;
  }

  lemma DecodedOne(p: Pump)
    requires p.running && p.buff != [] && !Step(p.decoder, p.buff[0]).1.Fault?
    ensures var (d, o) := Step(p.decoder, p.buff[0]);
      Next(p, DecodeByte) == Decoded(p, [p.buff[0]], p.buff[1..], d, Reports(o))
  {
    hide Step;
  }

  /** Decoding all of the chunk in hand. */
  lemma {:induction false} DecodeChunk(p: Pump)
    requires p.running && !Decode(p.decoder, p.buff).faulted
    ensures var r := Decode(p.decoder, p.buff);
      AfterAll(p, Bytes(|p.buff|)) == Decoded(p, p.buff, [], r.state, r.out)
    decreases |p.buff|
  {
    hide Step, Decoded, Next;
    if p.buff == [] {
      DecodedNothing(p);
    } else {
      var q := Next(p, DecodeByte);
      var (d, o) := Step(p.decoder, p.buff[0]);
      DecodedOne(p);
      DecodedHas(p, [p.buff[0]], p.buff[1..], d, Reports(o));
      assert Bytes(|p.buff|)[1..] == Bytes(|q.buff|) && Bytes(|p.buff|)[0] == DecodeByte;
      DecodeChunk(q);
      var r := Decode(q.decoder, q.buff);
      DecodedTwice(p, [p.buff[0]], p.buff[1..], d, Reports(o), [], r.state, r.out);
      assert p.buff == [p.buff[0]] + p.buff[1..];
    }
  }

  lemma DecodedHas(p: Pump, bytes: seq<byte>, rest: seq<byte>, decoder: Decoder, out: seq<Message>)
    ensures var q := Decoded(p, bytes, rest, decoder, out); q.buff == rest && q.decoder == decoder && q.running == p.running
  {}

  /** The drain thread polls a chunk and decodes it. */
  lemma PollAndDecode(p: Pump, chunk: seq<byte>, cleared: bool)
    requires p.running && p.buff == [] && p.queue == [] && p.bContinue && !Decode(p.decoder, chunk).faulted
    ensures var r := Decode(p.decoder, chunk);
      AfterAll(p, [Arrive(chunk), Poll] + (if cleared then [Clear] else []) + Bytes(|chunk|)) ==
      p.(received := p.received + chunk, consumed := p.consumed + chunk, decoder := r.state,
         bContinue := !cleared, delivered := p.delivered + r.out, heard := p.heard + Copies(|r.out|, !cleared),
         passed := if cleared then p.passed else p.passed + r.out)
  {
    hide Decode, Step;
    var head := [Arrive(chunk), Poll] + if cleared then [Clear] else [];
    AfterAllAppend(p, head, Bytes(|chunk|));
    var p1 := p.(queue := [chunk], received := p.received + chunk);
    var p2 := p1.(queue := [], buff := chunk);
    var p3 := p2.(bContinue := !cleared);
    assert [] + [chunk] == [chunk] && [chunk][1..] == [];
    assert head[0] == Arrive(chunk) && head[1..][0] == Poll;
    assert head[1..][1..] == if cleared then [Clear] else [];
    assert cleared ==> [Clear][1..] == [];
    assert AfterAll(p2, head[1..][1..]) == p3;
    assert AfterAll(p, head) == p3;
    DecodeChunk(p3);
  }

  const LINE_A := Sent([], Data, [0x61], 1)
  const LINE_B := Sent([], Data, [0x62], 2)

  function BytesOf(s: Sent): seq<byte>
    requires CanSend(s)
  {
    Encoding.Bytes(s)
  }

  lemma LinesCanBeSent()
    ensures CanSend(LINE_A) && CanSend(LINE_B)
  {}

  lemma DecodeLine(d: Decoder, s: Sent)
    requires d.listener && d.phase == Waiting && CanSend(s)
    ensures var r := Decode(d, BytesOf(s)); !r.faulted && r.state.phase == Waiting && r.state.listener && r.out == Arrival(s)
  {
    hide Step, Encode;
    ReceiveOne(d, s);
  }

  /** A message is lost, then the flag is set again. */
  function LoseOne(chunk: seq<byte>): seq<Action> {
    [Arrive(chunk), Poll] + [Clear] + Bytes(|chunk|) + [Reload]
  }

  function PassOne(chunk: seq<byte>): seq<Action> {
    [Arrive(chunk), Poll] + [] + Bytes(|chunk|)
  }

  lemma LoseOneLoses(p: Pump, s: Sent)
    requires p.running && p.buff == [] && p.queue == [] && p.bContinue && p.sockContinue
    requires p.decoder.listener && p.decoder.phase == Waiting && CanSend(s)
    ensures var q := AfterAll(p, LoseOne(BytesOf(s)));
      && q.running && q.buff == [] && q.queue == [] && q.bContinue && q.rearmed
      && q.decoder.listener && q.decoder.phase == Waiting
      && q.delivered == p.delivered + Arrival(s) && q.passed == p.passed
  {
    hide Step, Encode, Decode, Arrival;
    var chunk := BytesOf(s);
    DecodeLine(p.decoder, s);
    PollAndDecode(p, chunk, true);
    AfterAllAppend(p, [Arrive(chunk), Poll] + [Clear] + Bytes(|chunk|), [Reload]);
    hide Bytes, BytesOf;
    var q := AfterAll(p, [Arrive(chunk), Poll] + [Clear] + Bytes(|chunk|));
    assert [Reload][1..] == [] && AfterAll(q, [Reload]) == Next(q, Reload);
  }

  lemma PassOnePasses(p: Pump, s: Sent)
    requires p.running && p.buff == [] && p.queue == [] && p.bContinue
    requires p.decoder.listener && p.decoder.phase == Waiting && CanSend(s)
    ensures var q := AfterAll(p, PassOne(BytesOf(s)));
      q.rearmed == p.rearmed && q.delivered == p.delivered + Arrival(s) && q.passed == p.passed + Arrival(s)
  {
    hide Step, Encode, Decode, Arrival;
    DecodeLine(p.decoder, s);
    PollAndDecode(p, BytesOf(s), false);
  }

  lemma TwoLines(p: Pump, s: Sent, t: Sent)
    requires p.running && p.buff == [] && p.queue == [] && p.bContinue && p.sockContinue
    requires p.decoder.listener && p.decoder.phase == Waiting && CanSend(s) && CanSend(t)
    ensures var q := AfterAll(p, LoseOne(BytesOf(s)) + PassOne(BytesOf(t)));
      q.rearmed && q.delivered == p.delivered + Arrival(s) + Arrival(t) && q.passed == p.passed + Arrival(t)
  {
    LoseOneLoses(p, s);
    hide Encode, CanSend, LoseOne, PassOne, Arrival;
    PassOnePasses(AfterAll(p, LoseOne(BytesOf(s))), t);
    AfterAllAppend(p, LoseOne(BytesOf(s)), PassOne(BytesOf(t)));
  }

  lemma LinesDiffer()
    ensures !([] + Arrival(LINE_B) <= [] + Arrival(LINE_A) + Arrival(LINE_B))
  {
    var passed, delivered := [] + Arrival(LINE_B), [] + Arrival(LINE_A) + Arrival(LINE_B);
    assert delivered[0].text == [0x61, LINE_FEED] && passed[0].text == [0x62, LINE_FEED];
    assert delivered[0].text[0] != passed[0].text[0];
  }

  // ---------- the orders in which the manager is told to stop ----------

  predicate IsCall(a: Action) {
    a == Clear || a == SocketStops
  }

  /** The part of a run that is not the drain thread's or the line's: what clears the flag and
      what stops the socket client. */
  function Calls(actions: seq<Action>): (r: seq<Action>)
    ensures forall i :: 0 <= i < |r| ==> IsCall(r[i])
  {
    if actions == [] then [] else (if IsCall(actions[0]) then [actions[0]] else []) + Calls(actions[1..])
  }

  lemma {:induction false} CallsJoin(a: seq<Action>, b: seq<Action>)
    ensures Calls(a + b) == Calls(a) + Calls(b)
  {
    if a == [] {
      assert a + b == b;
    } else {
      assert (a + b)[1..] == a[1..] + b;
      CallsJoin(a[1..], b);
      Grouped(if IsCall(a[0]) then [a[0]] else [], Calls(a[1..]), Calls(b));
    }
  }

  lemma {:induction false} CallsOfCalls(cs: seq<Action>)
    requires forall i :: 0 <= i < |cs| ==> IsCall(cs[i])
    ensures Calls(cs) == cs
  {
    if cs != [] {
      CallsOfCalls(cs[1..]);
    }
  }

  lemma {:induction false} CallsOfBytes(n: nat)
    ensures Calls(Bytes(n)) == []
  {
    if n > 0 {
      assert Bytes(n)[1..] == Bytes(n - 1);
      CallsOfBytes(n - 1);
    }
  }

  lemma CallsOfChunks(chunk: seq<byte>)
    ensures Calls(LoseOne(chunk)) == [Clear] && Calls(PassOne(chunk)) == []
  {
    var head := [Arrive(chunk), Poll];
    assert head[1..][1..] == [] && Calls(head) == Calls(head[1..]) == [];
    assert [Clear][1..] == [] && [Reload][1..] == [];
    assert Calls([Clear]) == [Clear] && Calls([Reload]) == [];
    CallsOfBytes(|chunk|);
    hide Calls, Bytes;
    CallsJoin(head + [Clear] + Bytes(|chunk|), [Reload]);
    CallsJoin(head + [Clear], Bytes(|chunk|));
    CallsJoin(head, [Clear]);
    CallsJoin(head + [], Bytes(|chunk|));
    assert head + [] == head;
  }

  lemma {:induction false} OnlyCallsMatter(actions: seq<Action>, stopped: bool)
    ensures StopsFirst(Calls(actions), stopped) <==> StopsFirst(actions, stopped)
    decreases |actions|
  {
    if actions != [] {
      var rest := Calls(actions[1..]);
      assert ([actions[0]] + rest)[1..] == rest && [] + rest == rest;
      OnlyCallsMatter(actions[1..], stopped || actions[0] == SocketStops);
    }
  }

  lemma {:induction false} StoppedIsFirst(cs: seq<Action>)
    ensures StopsFirst(cs, true)
  {
    if cs != [] {
      StoppedIsFirst(cs[1..]);
    }
  }

  lemma {:induction false} CallsTouchNoMessage(p: Pump, cs: seq<Action>)
    requires forall i :: 0 <= i < |cs| ==> IsCall(cs[i])
    ensures AfterAll(p, cs).delivered == p.delivered && AfterAll(p, cs).passed == p.passed
    decreases |cs|
  {
    hide Step;
    if cs != [] {
      assert IsCall(cs[0]);
      CallsTouchNoMessage(Next(p, cs[0]), cs[1..]);
    }
  }

  /** A run in which the flag is cleared while a chunk is decoded and the queue then runs empty
      while the socket is still open, so that the drain thread sets the flag again: the message
      decoded in between is lost and the next one passed on. */
  lemma SkippingRun() returns (actions: seq<Action>)
    ensures Calls(actions) == [Clear] && AfterAll(Start(), actions).rearmed
    ensures !(AfterAll(Start(), actions).passed <= AfterAll(Start(), actions).delivered)
  {
    LinesCanBeSent();
    TwoLines(Start(), LINE_A, LINE_B);
    LinesDiffer();
    hide AfterAll, BytesOf, LoseOne, PassOne, Arrival, Calls, CanSend;
    actions := LoseOne(BytesOf(LINE_A)) + PassOne(BytesOf(LINE_B));
    CallsOfChunks(BytesOf(LINE_A));
    CallsOfChunks(BytesOf(LINE_B));
    CallsJoin(LoseOne(BytesOf(LINE_A)), PassOne(BytesOf(LINE_B)));
    assert [Clear] + [] == [Clear];
  }

  lemma RearmingLosesMessages()
    ensures exists actions :: var q := AfterAll(Start(), actions); q.rearmed && !(q.passed <= q.delivered)
  {
    hide *;
    var actions := SkippingRun();
  }

  /** With any further calls the message stays skipped. */
  lemma ClearingFirstSkips(cs: seq<Action>) returns (actions: seq<Action>)
    requires cs != [] && cs[0] == Clear && forall i :: 0 <= i < |cs| ==> IsCall(cs[i])
    ensures Calls(actions) == cs && !(AfterAll(Start(), actions).passed <= AfterAll(Start(), actions).delivered)
  {
    hide *;
    var a := SkippingRun();
    actions := a + cs[1..];
    CallsJoin(a, cs[1..]);
    CallsOfCalls(cs[1..]);
    CallsTouchNoMessage(AfterAll(Start(), a), cs[1..]);
    AfterAllAppend(Start(), a, cs[1..]);
    assert [Clear] + cs[1..] == cs;
  }

  /** For every order of calls: every run with these calls hands on the first messages
      decoded, none left out, if and only if there are no calls or the first one stops the
      socket client.  `Disconnect` begins with the other one. */
  lemma SkipsNothingIff(cs: seq<Action>)
    requires forall i :: 0 <= i < |cs| ==> IsCall(cs[i])
    ensures (forall actions :: Calls(actions) == cs ==> NoneSkipped(PassedAt(AfterAll(Start(), actions)))) <==>
      cs == [] || cs[0] == SocketStops
    ensures (forall actions :: Calls(actions) == cs ==> AfterAll(Start(), actions).passed <= AfterAll(Start(), actions).delivered)
      <==> cs == [] || cs[0] == SocketStops
  {
    if cs == [] || cs[0] == SocketStops {
      assert StopsFirst(cs, false) by {
        if cs != [] {
          StoppedIsFirst(cs[1..]);
        }
      }
      hide *;
      forall actions | Calls(actions) == cs
        ensures NoneSkipped(PassedAt(AfterAll(Start(), actions)))
        ensures AfterAll(Start(), actions).passed <= AfterAll(Start(), actions).delivered
      {
        OnlyCallsMatter(actions, false);
        StoppingFirstSkipsNothing(actions);
      }
    } else {
      assert IsCall(cs[0]) && cs[0] == Clear;
      hide *;
      var actions := ClearingFirstSkips(cs);
      RunsFromStart(actions);
      if NoneSkipped(PassedAt(AfterAll(Start(), actions))) {
        PassedIsPrefix(AfterAll(Start(), actions));
      }
    }
  }
}
