/**
 * The state messages from the Pi to the ESP32 (ECU_RASP/main.py:317, uart_handler.c:76-98): their bytes,
 * what a read chunk makes of them, and how many rising edges into AUTOBRAKE survive.
 */
module StateLink {
  import opened Sequences
  import opened Decimal
  import opened FalseAlarmFilter

  const UNDERSCORE: Byte := 95
  const BRAKE: Byte := 2

  type Slot = i: int | 0 <= i < EVENTS_ARRAY_SIZE

  datatype Message = Message(state: StateId, slot: Slot)

  function Encode(m: Message): (bytes: seq<Byte>)
    ensures |bytes| >= 3
  {
    [ZERO + m.state, UNDERSCORE] + Digits(m.slot)
  }

  function EncodeAll(ms: seq<Message>): seq<Byte> {
    if ms == [] then [] else Encode(ms[0]) + EncodeAll(ms[1..])
  }

  /** The message sent at the end of each tick of the history h. */
  function Messages(h: seq<Zone>): (ms: seq<Message>)
    ensures |ms| == |h|
  {
    if h == [] then []
    else Messages(h[..|h| - 1]) + [Message(After(h).current, (|h| - 1) % EVENTS_ARRAY_SIZE)]
  }

  /** `uint8_t current_state = data[0]-48`: only the first byte of a chunk counts, modulo 256. */
  function DecodeState(chunk: seq<Byte>): Byte
    requires chunk != []
  {
    (chunk[0] - ZERO) % 256
  }

  function DecodeAll(chunks: seq<seq<Byte>>): (states: seq<Byte>)
    requires forall i :: 0 <= i < |chunks| ==> chunks[i] != []
    ensures |states| == |chunks|
  {
    seq(|chunks|, i requires 0 <= i < |chunks| => DecodeState(chunks[i]))
  }

  /** How often the sequence changes into AUTOBRAKE, coming from prev. */
  function RisingEdges(prev: Byte, states: seq<Byte>): (n: nat)
    ensures n <= |states|
    decreases states
  {
    if states == [] then 0
    else (if states[0] == BRAKE && prev != BRAKE then 1 else 0) + RisingEdges(states[0], states[1..])
  }

  function States(ms: seq<Message>): (states: seq<Byte>)
    ensures |states| == |ms|
  {
    seq(|ms|, i requires 0 <= i < |ms| => ms[i].state)
  }

  /** How often the Pi itself enters AUTOBRAKE. */
  function AutobrakeEntries(ms: seq<Message>): nat {
    RisingEdges(0, States(ms))
  }

  lemma MessagesSnoc(h: seq<Zone>, z: Zone)
    ensures Messages(h + [z]) == Messages(h) + [Message(After(h + [z]).current, |h| % EVENTS_ARRAY_SIZE)]
  {
    hide After;
    assert (h + [z])[..|h|] == h;
  }

  /** Message k carries the state after tick k and the slot that tick wrote. */
  lemma {:induction false} MessageAt(h: seq<Zone>, k: nat)
    requires k < |h|
    ensures Messages(h)[k] == Message(After(h[..k + 1]).current, k % EVENTS_ARRAY_SIZE)
  {
    if k < |h| - 1 {
      MessageAt(h[..|h| - 1], k);
      assert h[..|h| - 1][..k + 1] == h[..k + 1];
    } else {
      assert h[..k + 1] == h;
    }
  }

  /** State and slot number are recovered from the bytes of a message, of which there are three or four. */
  lemma MessageRoundTrip(m: Message)
    ensures var bytes := Encode(m);
            && bytes[0] - 48 == m.state && bytes[1] == 95
            && IsDigits(bytes[2..]) && Number(bytes[2..]) == m.slot
            && |bytes| == if m.slot < 10 then 3 else 4
  {
    hide Number;
    NumberOfDigits(m.slot);
    assert Encode(m)[2..] == Digits(m.slot);
    NoLeadingZero(m.slot);
    if m.slot >= 10 {
      NoLeadingZero(m.slot / 10);
    }
  }

  // -------------------------------------------------------------- rising edges

  lemma {:induction false} EdgesSnoc(prev: Byte, states: seq<Byte>, b: Byte)
    ensures RisingEdges(prev, states + [b]) == RisingEdges(prev, states)
            + (if b == BRAKE && (if states == [] then prev else states[|states| - 1]) != BRAKE then 1 else 0)
    decreases states
  {
    if states == [] {
      assert [] + [b] == [b];
    } else {
      EdgesSnoc(states[0], states[1..], b);
      assert (states + [b])[1..] == states[1..] + [b];
    }
  }

  /** Leaving states out in front never adds an edge. */
  lemma {:induction false} DroppingNeverAddsEdges(prev: Byte, dropped: seq<Byte>, states: seq<Byte>)
    ensures RisingEdges(prev, states) <= RisingEdges(prev, dropped + states)
    decreases dropped
  {
    if dropped == [] {
      assert dropped + states == states;
    } else {
      DroppingNeverAddsEdges(dropped[0], dropped[1..], states);
      assert (dropped + states)[1..] == dropped[1..] + states;
    }
  }

  /** Cutting the sequence short never adds an edge. */
  lemma {:induction false} PrefixNeverAddsEdges(prev: Byte, states: seq<Byte>, more: seq<Byte>)
    ensures RisingEdges(prev, states) <= RisingEdges(prev, states + more)
    decreases states
  {
    if states != [] {
      PrefixNeverAddsEdges(states[0], states[1..], more);
      assert (states + more)[1..] == states[1..] + more;
    }
  }

  lemma {:induction false} NoEdgeWithoutBrake(prev: Byte, states: seq<Byte>)
    ensures prev != BRAKE ==> (RisingEdges(prev, states) == 0 <==> BRAKE !in states)
    ensures BRAKE !in states ==> RisingEdges(prev, states) == 0
    decreases states
  {
    if states != [] {
      NoEdgeWithoutBrake(states[0], states[1..]);
      assert states == [states[0]] + states[1..];
    }
  }

  // ---------------------------------------------- delivery in whole messages

  /** The chunk made of whole messages. */
  function Chunks(groups: seq<seq<Message>>): (chunks: seq<seq<Byte>>)
    ensures |chunks| == |groups|
  {
    seq(|groups|, i requires 0 <= i < |groups| => EncodeAll(groups[i]))
  }

  ghost predicate NonEmptyGroups(groups: seq<seq<Message>>) {
    forall i :: 0 <= i < |groups| ==> groups[i] != []
  }

  /** The first message of each group: the only one the receiver looks at. */
  function Heads(groups: seq<seq<Message>>): (ms: seq<Message>)
    requires NonEmptyGroups(groups)
    ensures |ms| == |groups|
  {
    seq(|groups|, i requires 0 <= i < |groups| => groups[i][0])
  }

  /** Decoding chunks of whole messages gives exactly the states of the chunk heads. */
  lemma WholeChunksDecode(groups: seq<seq<Message>>)
    requires NonEmptyGroups(groups)
    ensures forall i :: 0 <= i < |groups| ==> Chunks(groups)[i] != []
    ensures DecodeAll(Chunks(groups)) == States(Heads(groups))
  {
    forall i | 0 <= i < |groups|
      ensures Chunks(groups)[i] != [] && DecodeState(Chunks(groups)[i]) == groups[i][0].state
    {
      assert EncodeAll(groups[i]) == Encode(groups[i][0]) + EncodeAll(groups[i][1..]);
    }
  }

  /** Edges seen through the chunk heads never exceed the edges sent. */
  lemma {:induction false} HeadsNeverAddEdges(prev: Byte, groups: seq<seq<Message>>)
    requires NonEmptyGroups(groups)
    ensures RisingEdges(prev, States(Heads(groups))) <= RisingEdges(prev, States(Flatten(groups)))
    decreases groups
  {
    if groups != [] {
      var g, rest := groups[0], groups[1..];
      var b: Byte := g[0].state;
      HeadsNeverAddEdges(b, rest);
      DroppingNeverAddsEdges(b, States(g[1..]), States(Flatten(rest)));
      assert Flatten(groups) == g + Flatten(rest);
      assert States(Heads(groups))[1..] == States(Heads(rest));
      assert States(Flatten(groups))[1..] == States(g[1..]) + States(Flatten(rest));
    }
  }

  /** With one message a chunk nothing is lost: the heads are the messages. */
  lemma {:induction false} SingleMessagesAreAllHeads(groups: seq<seq<Message>>)
    requires forall i :: 0 <= i < |groups| ==> |groups[i]| == 1
    ensures Heads(groups) == Flatten(groups)
  {
    if groups != [] {
      SingleMessagesAreAllHeads(groups[1..]);
      assert Flatten(groups) == groups[0] + Flatten(groups[1..]) && groups[0] == [groups[0][0]];
      assert Heads(groups) == [groups[0][0]] + Heads(groups[1..]);
    }
  }

  /** Delivery in whole messages never over-brakes, and is exact with one message a chunk. */
  lemma WholeDeliveryEdges(groups: seq<seq<Message>>)
    requires NonEmptyGroups(groups)
    ensures forall i :: 0 <= i < |groups| ==> Chunks(groups)[i] != []
    ensures RisingEdges(0, DecodeAll(Chunks(groups))) <= AutobrakeEntries(Flatten(groups))
    ensures (forall i :: 0 <= i < |groups| ==> |groups[i]| == 1)
            ==> RisingEdges(0, DecodeAll(Chunks(groups))) == AutobrakeEntries(Flatten(groups))
  {
    WholeChunksDecode(groups);
    HeadsNeverAddEdges(0, groups);
    if forall i :: 0 <= i < |groups| ==> |groups[i]| == 1 {
      SingleMessagesAreAllHeads(groups);
    }
  }

  // ------------------------------------------------ chunks cut inside messages

  lemma {:induction false} EncodeConcat(a: seq<Message>, b: seq<Message>)
    ensures EncodeAll(a + b) == EncodeAll(a) + EncodeAll(b)
  {
    hide Encode;
    if a == [] {
      assert a + b == b;
    } else {
      EncodeConcat(a[1..], b);
      assert (a + b)[1..] == a[1..] + b;
    }
  }

  lemma SingleEncode(m: Message)
    ensures EncodeAll([m]) == Encode(m)
  {
    assert EncodeAll([m]) == Encode(m) + EncodeAll([m][1..]);
  }

  /** Two streams that start with a message start with the same one: a slot number ends before a digit and '_'. */
  lemma SameFirstMessage(m: Message, n: Message, a: seq<Message>, b: seq<Message>)
    requires Encode(m) + EncodeAll(a) == Encode(n) + EncodeAll(b)
    ensures m == n && EncodeAll(a) == EncodeAll(b)
  {
    hide EncodeAll, Encode, Number;
    var x, y := Encode(m) + EncodeAll(a), Encode(n) + EncodeAll(b);
    MessageRoundTrip(m);
    MessageRoundTrip(n);
    StreamHead(a);
    StreamHead(b);
    assert x[0] == y[0] && x[2] == y[2];
    assert |Encode(m)| == |Encode(n)| by {
      assert |x| > 4 ==> x[4] == y[4];
    }
    assert x[..|Encode(m)|] == Encode(m) && y[..|Encode(n)|] == Encode(n);
    assert x[|Encode(m)|..] == EncodeAll(a) && y[|Encode(n)|..] == EncodeAll(b);
  }

  lemma StreamHead(ms: seq<Message>)
    ensures ms == [] ==> EncodeAll(ms) == []
    ensures ms != [] ==> |EncodeAll(ms)| >= 3 && 48 <= EncodeAll(ms)[0] <= 50 && EncodeAll(ms)[1] == 95
  {
  }

  /** Though nothing separates the messages, the bytes of any stream determine all of them. */
  lemma {:induction false} StreamDecodable(a: seq<Message>, b: seq<Message>)
    requires EncodeAll(a) == EncodeAll(b)
    ensures a == b
  {
    hide Encode;
    if a == [] || b == [] {
      StreamHead(a);
      StreamHead(b);
    } else {
      SameFirstMessage(a[0], b[0], a[1..], b[1..]);
      StreamDecodable(a[1..], b[1..]);
      assert a == [a[0]] + a[1..] && b == [b[0]] + b[1..];
    }
  }

  /** The message the byte at position p of the stream belongs to. */
  function MessageOf(ms: seq<Message>, p: nat): (j: nat)
    requires p < |EncodeAll(ms)|
    ensures j < |ms|
    decreases ms
  {
    if p < |Encode(ms[0])| then 0 else 1 + MessageOf(ms[1..], p - |Encode(ms[0])|)
  }

  /** How far into that message it stands. */
  function PlaceIn(ms: seq<Message>, p: nat): (q: nat)
    requires p < |EncodeAll(ms)|
    ensures q < |Encode(ms[MessageOf(ms, p)])|
    decreases ms
  {
    if p < |Encode(ms[0])| then p else PlaceIn(ms[1..], p - |Encode(ms[0])|)
  }

  /** Message and place determine the position, and the byte found there. */
  lemma {:induction false} ByteAt(ms: seq<Message>, p: nat)
    requires p < |EncodeAll(ms)|
    ensures EncodeAll(ms)[p] == Encode(ms[MessageOf(ms, p)])[PlaceIn(ms, p)]
    ensures p == |EncodeAll(ms[..MessageOf(ms, p)])| + PlaceIn(ms, p)
    decreases ms
  {
    hide Encode;
    if p >= |Encode(ms[0])| {
      var q, j := p - |Encode(ms[0])|, MessageOf(ms, p);
      ByteAt(ms[1..], q);
      assert ms[..j][1..] == ms[1..][..j - 1];
    }
  }

  lemma {:induction false} MessageOfMonotone(ms: seq<Message>, p: nat, r: nat)
    requires p <= r < |EncodeAll(ms)|
    ensures MessageOf(ms, p) <= MessageOf(ms, r)
    decreases ms
  {
    hide Encode;
    if p >= |Encode(ms[0])| {
      MessageOfMonotone(ms[1..], p - |Encode(ms[0])|, r - |Encode(ms[0])|);
    }
  }

  /** Place q of message m holds the digit 2: the head of an AUTOBRAKE message, or the last digit of slot 2 or 12. */
  predicate TwoAt(m: Message, q: nat) {
    || (q == 0 && m.state == AUTOBRAKE_STATE_ID)
    || (q + 1 == |Encode(m)| && m.slot % 10 == 2)
  }

  lemma TwoInMessage(m: Message, q: nat)
    requires q < |Encode(m)|
    ensures Encode(m)[q] == ZERO + 2 <==> TwoAt(m, q)
  {
    LastDigit(m.slot);
    if m.slot >= 10 {
      assert Digits(m.slot) == Digits(m.slot / 10) + [ZERO + m.slot % 10];
    }
  }

  /** A chunk starting at position p is taken for AUTOBRAKE. */
  predicate ReadAsBrake(ms: seq<Message>, p: nat) {
    p < |EncodeAll(ms)| && TwoAt(ms[MessageOf(ms, p)], PlaceIn(ms, p))
  }

  /** Where chunk i starts in the byte stream. */
  function Offset(chunks: seq<seq<Byte>>, i: nat): nat
    requires i <= |chunks|
  {
    |Flatten(chunks[..i])|
  }

  /** Some way of cutting the stream, or the part of it read so far, into chunks. */
  ghost predicate IsCut(ms: seq<Message>, chunks: seq<seq<Byte>>) {
    (forall i :: 0 <= i < |chunks| ==> chunks[i] != []) && Flatten(chunks) <= EncodeAll(ms)
  }

  /** For every stream and every cut: a chunk decodes to AUTOBRAKE iff it starts at such a digit. */
  lemma CutChunkDecodes(ms: seq<Message>, chunks: seq<seq<Byte>>, i: nat)
    requires IsCut(ms, chunks) && i < |chunks|
    ensures Offset(chunks, i) < |EncodeAll(ms)|
    ensures DecodeState(chunks[i]) == BRAKE <==> ReadAsBrake(ms, Offset(chunks, i))
  {
    hide EncodeAll, Encode, Flatten, TwoAt, MessageOf, PlaceIn;
    var p := Offset(chunks, i);
    FlattenHead(chunks, i);
    ByteAt(ms, p);
    TwoInMessage(ms[MessageOf(ms, p)], PlaceIn(ms, p));
  }

  predicate RiseAt(states: seq<Byte>, i: int)
    requires 0 <= i < |states|
  {
    states[i] == BRAKE && (i == 0 || states[i - 1] != BRAKE)
  }

  /** The positions at which a sequence of states rises into AUTOBRAKE. */
  ghost function Rises(states: seq<Byte>): set<int> {
    set i | 0 <= i < |states| && RiseAt(states, i)
  }

  lemma RisesSnoc(p: seq<Byte>, b: Byte)
    ensures |Rises(p + [b])| == |Rises(p)| + (if RiseAt(p + [b], |p|) then 1 else 0)
  {
    var states, n := p + [b], |p|;
    forall i | 0 <= i < n ensures RiseAt(states, i) == RiseAt(p, i) {
    }
    hide RiseAt;
    assert Rises(states) == Rises(p) + (if RiseAt(states, n) then {n} else {});
  }

  lemma {:induction false} EdgesAreRises(states: seq<Byte>)
    ensures RisingEdges(0, states) == |Rises(states)|
  {
    if states != [] {
      var p, b := states[..|states| - 1], states[|states| - 1];
      EdgesAreRises(p);
      EdgesSnoc(0, p, b);
      LastSplit(states);
      RisesSnoc(p, b);
    }
  }

  /** Chunk i is taken for a brake request while the one before was not. */
  predicate BrakingChunk(ms: seq<Message>, chunks: seq<seq<Byte>>, i: int)
    requires 0 <= i < |chunks|
  {
    ReadAsBrake(ms, Offset(chunks, i)) && (i == 0 || !ReadAsBrake(ms, Offset(chunks, i - 1)))
  }

  ghost function BrakingChunks(ms: seq<Message>, chunks: seq<seq<Byte>>): set<int> {
    set i | 0 <= i < |chunks| && BrakingChunk(ms, chunks, i)
  }

  /** The exact number of rising edges seen, for every stream and every cut. */
  lemma CutEdgesExactly(ms: seq<Message>, chunks: seq<seq<Byte>>)
    requires IsCut(ms, chunks)
    ensures RisingEdges(0, DecodeAll(chunks)) == |BrakingChunks(ms, chunks)|
  {
    hide ReadAsBrake, Offset, RisingEdges, DecodeState;
    var states := DecodeAll(chunks);
    EdgesAreRises(states);
    forall i | 0 <= i < |chunks| ensures states[i] == BRAKE <==> ReadAsBrake(ms, Offset(chunks, i)) {
      CutChunkDecodes(ms, chunks, i);
    }
    assert Rises(states) == BrakingChunks(ms, chunks);
  }

  /** Chunk i starts in an AUTOBRAKE message and is not taken for one. */
  predicate LosesAutobrake(ms: seq<Message>, p: nat)
    requires p < |EncodeAll(ms)|
  {
    var m, q := ms[MessageOf(ms, p)], PlaceIn(ms, p);
    m.state == AUTOBRAKE_STATE_ID && q > 0 && (q + 1 < |Encode(m)| || m.slot % 10 != 2)
  }

  /** Chunk i starts in a message of another state and is taken for AUTOBRAKE. */
  predicate InventsAutobrake(ms: seq<Message>, p: nat)
    requires p < |EncodeAll(ms)|
  {
    var m, q := ms[MessageOf(ms, p)], PlaceIn(ms, p);
    m.state != AUTOBRAKE_STATE_ID && q + 1 == |Encode(m)| && m.slot % 10 == 2
  }

  /** AUTOBRAKE is seen as the message a chunk starts in has it iff the cut neither loses nor invents it. */
  lemma ChunkHonestExactly(ms: seq<Message>, chunks: seq<seq<Byte>>, i: nat)
    requires IsCut(ms, chunks) && i < |chunks|
    ensures var p := Offset(chunks, i);
            && p < |EncodeAll(ms)|
            && ((DecodeState(chunks[i]) == BRAKE <==> ms[MessageOf(ms, p)].state == AUTOBRAKE_STATE_ID)
                <==> !LosesAutobrake(ms, p) && !InventsAutobrake(ms, p))
  {
    hide EncodeAll, MessageOf, PlaceIn, DecodeState, IsCut, Offset;
    CutChunkDecodes(ms, chunks, i);
  }

  ghost predicate HonestCut(ms: seq<Message>, chunks: seq<seq<Byte>>)
    requires IsCut(ms, chunks)
  {
    forall i :: 0 <= i < |chunks| ==>
      var p := Offset(chunks, i);
      p < |EncodeAll(ms)| ==> !LosesAutobrake(ms, p) && !InventsAutobrake(ms, p)
  }

  lemma {:induction false} EdgesConcat(prev: Byte, a: seq<Byte>, b: seq<Byte>)
    ensures RisingEdges(prev, a + b)
            == RisingEdges(prev, a) + RisingEdges(if a == [] then prev else a[|a| - 1], b)
    decreases a
  {
    if a == [] {
      assert a + b == b;
    } else {
      EdgesConcat(a[0], a[1..], b);
      assert (a + b)[1..] == a[1..] + b;
    }
  }

  /** Between a state that is not AUTOBRAKE and a later one that is, there is an edge. */
  lemma EdgeBetween(states: seq<Byte>, j: nat, k: nat)
    requires j <= k < |states|
    ensures RisingEdges(0, states[..j + 1]) <= RisingEdges(0, states[..k + 1])
    ensures states[j] != BRAKE && states[k] == BRAKE
            ==> RisingEdges(0, states[..j + 1]) < RisingEdges(0, states[..k + 1])
  {
    var a, b := states[..j + 1], states[j + 1..k + 1];
    assert states[..k + 1] == a + b;
    EdgesConcat(0, a, b);
    NoEdgeWithoutBrake(states[j], b);
    if states[j] != BRAKE && states[k] == BRAKE {
      assert b[k - j - 1] == BRAKE;
    }
  }

  /** The k chunks read so far show no more edges than the messages up to the one the last of them starts in. */
  lemma {:induction false} HonestEdges(ms: seq<Message>, chunks: seq<seq<Byte>>, k: nat)
    requires IsCut(ms, chunks) && HonestCut(ms, chunks) && 0 < k <= |chunks|
    ensures var p := Offset(chunks, k - 1);
            && p < |EncodeAll(ms)|
            && RisingEdges(0, DecodeAll(chunks)[..k]) <= RisingEdges(0, States(ms)[..MessageOf(ms, p) + 1])
  {
    hide EncodeAll, MessageOf, LosesAutobrake, InventsAutobrake, RisingEdges, Flatten, Offset, ReadAsBrake, DecodeState;
    var states, sent := DecodeAll(chunks), States(ms);
    CutChunkDecodes(ms, chunks, k - 1);
    ChunkHonestExactly(ms, chunks, k - 1);
    var j := MessageOf(ms, Offset(chunks, k - 1));
    LastSplit(states[..k]);
    assert states[..k][..k - 1] == states[..k - 1];
    EdgesSnoc(0, states[..k - 1], states[k - 1]);
    if k == 1 {
      FirstEdge(sent, j);
      assert states[..0] == [];
      NoEdgeWithoutBrake(0, []);
    } else {
      HonestEdges(ms, chunks, k - 1);
      CutChunkDecodes(ms, chunks, k - 2);
      ChunkHonestExactly(ms, chunks, k - 2);
      OffsetsGrow(chunks, k - 2);
      MessageOfMonotone(ms, Offset(chunks, k - 2), Offset(chunks, k - 1));
      EdgeBetween(sent, MessageOf(ms, Offset(chunks, k - 2)), j);
    }
  }

  lemma FirstEdge(states: seq<Byte>, j: nat)
    requires j < |states|
    ensures states[j] == BRAKE ==> RisingEdges(0, states[..j + 1]) >= 1
  {
    NoEdgeWithoutBrake(0, states[..j + 1]);
    assert states[..j + 1][j] == states[j];
  }

  lemma OffsetsGrow(chunks: seq<seq<Byte>>, i: nat)
    requires i + 1 < |chunks|
    ensures Offset(chunks, i) <= Offset(chunks, i + 1)
  {
    assert chunks[..i + 1] == chunks[..i] + [chunks[i]];
    FlattenSnoc(chunks[..i], chunks[i]);
  }

  /** However the stream is cut, a cut that neither loses nor invents AUTOBRAKE never adds an edge. */
  lemma HonestCutNeverOverBrakes(ms: seq<Message>, chunks: seq<seq<Byte>>)
    requires IsCut(ms, chunks) && HonestCut(ms, chunks)
    ensures RisingEdges(0, DecodeAll(chunks)) <= AutobrakeEntries(ms)
  {
    hide EncodeAll, MessageOf, LosesAutobrake, InventsAutobrake, Flatten;
    if chunks != [] {
      var n := |chunks|;
      HonestEdges(ms, chunks, n);
      assert DecodeAll(chunks)[..n] == DecodeAll(chunks);
      var j := MessageOf(ms, Offset(chunks, n - 1));
      assert States(ms) == States(ms)[..j + 1] + States(ms)[j + 1..];
      PrefixNeverAddsEdges(0, States(ms)[..j + 1], States(ms)[j + 1..]);
    }
  }

  lemma FlattenFour(a: seq<Byte>, b: seq<Byte>, c: seq<Byte>, d: seq<Byte>)
    ensures Flatten([a, b, c, d]) == a + (b + c) + d
  {
    FlattenThree(a, b, c);
    FlattenSnoc([a, b, c], d);
    assert [a, b, c] + [d] == [a, b, c, d];
  }

  /** A sent stream cut into its first messages, one byte, the rest of that message, and the further messages. */
  function InsideCut(first: seq<Message>, m: Message, more: seq<Message>): seq<seq<Byte>> {
    [EncodeAll(first), Encode(m)[..1], Encode(m)[1..], EncodeAll(more)]
  }

  lemma FlattenThree(a: seq<Byte>, b: seq<Byte>, c: seq<Byte>)
    ensures Flatten([a, b, c]) == a + (b + c)
  {
    FlattenSnoc([], a);
    FlattenSnoc([a], b);
    FlattenSnoc([a, b], c);
    assert [a] + [b] == [a, b] && [a, b] + [c] == [a, b, c];
  }

  lemma InsideCutDecodes(first: seq<Message>, m: Message, more: seq<Message>)
    requires first != [] && more != []
    ensures IsCut(first + [m] + more, InsideCut(first, m, more))
    ensures Flatten(InsideCut(first, m, more)) == EncodeAll(first + [m] + more)
    ensures Flatten(InsideCut(first, m, more)[..3]) == EncodeAll(first + [m])
    ensures DecodeAll(InsideCut(first, m, more)) == [first[0].state as Byte, m.state as Byte, 47, more[0].state as Byte]
  {
    hide EncodeAll, Flatten;
    EncodeConcat(first, [m]);
    EncodeConcat(first + [m], more);
    SingleEncode(m);
    FirstByte(first);
    FirstByte(more);
    FlattenFour(EncodeAll(first), Encode(m)[..1], Encode(m)[1..], EncodeAll(more));
    assert Encode(m)[..1] + Encode(m)[1..] == Encode(m);
    FlattenThree(EncodeAll(first), Encode(m)[..1], Encode(m)[1..]);
    assert InsideCut(first, m, more)[..3] == [EncodeAll(first), Encode(m)[..1], Encode(m)[1..]];
  }

  lemma FirstByte(ms: seq<Message>)
    requires ms != []
    ensures EncodeAll(ms) != [] && DecodeState(EncodeAll(ms)) == ms[0].state
  {
    assert EncodeAll(ms) == Encode(ms[0]) + EncodeAll(ms[1..]);
  }
}
