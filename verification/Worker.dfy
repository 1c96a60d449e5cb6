/** The receiving half of the wire format of the live-track WebSocket: how the browser's worker
    takes a send apart again, and exactly when nothing is lost on the way. */
module Worker {
  import opened Collections
  import opened Framing

  const TAK_MAGIC: Bytes := [0xbf, 0x01, 0xbf]

  predicate StartsWith(b: Bytes, magic: Bytes) {
    |b| >= |magic| && b[..|magic|] == magic
  }

  function FromLittleEndian(b: Bytes, width: nat): nat
    requires |b| >= width
    decreases width
  {
    if width == 0 then 0 else b[0] as nat + 256 * FromLittleEndian(b[1..], width - 1)
  }

  function FromLe32(b: Bytes): nat
    requires |b| >= 4
  {
    FromLittleEndian(b, 4)
  }

  /** splitBatchFrame on the bytes after the magic: stops at a truncated tail and at a
      record of length zero. */
  function Split(b: Bytes): seq<Bytes>
    decreases |b|
  {
    if |b| < 4 then []
    else
      var n := FromLe32(b);
      if n == 0 || 4 + n > |b| then [] else [b[4..4 + n]] + Split(b[4 + n..])
  }

  /** What one send carries in the documented format, whatever the messages are. */
  function SplitSend(s: Send): seq<Item> {
    match s
    case Text(d) => [Tagged("alert", d)]
    case Binary(b) => Protos(if StartsWith(b, BATCH_MAGIC) then Split(b[3..]) else [b])
  }

  function SplitAll(ss: seq<Send>): seq<Item> {
    if ss == [] then [] else SplitSend(ss[0]) + SplitAll(ss[1..])
  }

  /** The items a browser can read: the alerts and the TAK messages. decodeOne ignores whatever does
      not start with the TAK magic. */
  function Readable(items: seq<Item>): seq<Item> {
    if items == [] then [] else ReadableItem(items[0]) + Readable(items[1..])
  }

  function ReadableItem(it: Item): seq<Item> {
    if it.Proto? && !StartsWith(it.frame, TAK_MAGIC) then [] else [it]
  }

  ghost predicate TakFramed(items: seq<Item>) {
    forall it <- items :: it.Proto? ==> StartsWith(it.frame, TAK_MAGIC)
  }

  lemma {:induction false} ReadableIsTak(items: seq<Item>)
    ensures TakFramed(Readable(items))
  {
    if items != [] {
      ReadableIsTak(items[1..]);
    }
  }

  lemma {:induction false} ReadableAppend(a: seq<Item>, b: seq<Item>)
    ensures Readable(a + b) == Readable(a) + Readable(b)
  {
    if a == [] {
      assert a + b == b;
    } else {
      assert (a + b)[1..] == a[1..] + b;
      ReadableAppend(a[1..], b);
      Assoc(ReadableItem(a[0]), Readable(a[1..]), Readable(b));
    }
  }

  /** What the browser reads out of one send. */
  function DecodeSend(s: Send): seq<Item> {
    Readable(SplitSend(s))
  }

  function Decode(ss: seq<Send>): seq<Item> {
    if ss == [] then [] else DecodeSend(ss[0]) + Decode(ss[1..])
  }

  lemma {:induction false} DecodeAppend(a: seq<Send>, b: seq<Send>)
    ensures Decode(a + b) == Decode(a) + Decode(b)
  {
    if a == [] {
      assert a + b == b;
    } else {
      assert (a + b)[1..] == a[1..] + b;
      DecodeAppend(a[1..], b);
      Assoc(DecodeSend(a[0]), Decode(a[1..]), Decode(b));
    }
  }

  /** A completed send moves from what is unsent to what was sent, and reads the same. */
  lemma {:induction false} DecodeShift(sent: seq<Send>, unsent: seq<Send>)
    requires unsent != []
    ensures Decode(sent + [unsent[0]]) + Decode(unsent[1..]) == Decode(sent) + Decode(unsent)
  {
    var first, rest := [unsent[0]], unsent[1..];
    assert unsent == first + rest;
    DecodeAppend(sent, first);
    DecodeAppend(first, rest);
    Assoc(Decode(sent), Decode(first), Decode(rest));
  }

  // ---------------------------------------------------------------------------
  // Round trip, and exactly when it holds
  // ---------------------------------------------------------------------------

  function Power256(width: nat): nat {
    if width == 0 then 1 else 256 * Power256(width - 1)
  }

  lemma {:induction false} LittleEndianRoundTrip(n: nat, width: nat, rest: Bytes)
    requires n < Power256(width)
    ensures FromLittleEndian(LittleEndian(n, width) + rest, width) == n
    decreases width
  {
    if width > 0 {
      var b := LittleEndian(n, width) + rest;
      assert b[0] == n % 256 && b[1..] == LittleEndian(n / 256, width - 1) + rest;
      LittleEndianRoundTrip(n / 256, width - 1, rest);
    }
  }

  lemma {:induction false} Le32RoundTrip(n: nat, rest: Bytes)
    requires n < 0x1_0000_0000
    ensures FromLe32(Le32(n) + rest) == n
  {
    assert Power256(4) == 256 * (256 * (256 * (256 * Power256(0))));
    LittleEndianRoundTrip(n, 4, rest);
  }

  /** The browser's reading of a run of records: everything up to the first empty message. */
  function BeforeEmpty(ms: seq<Bytes>): (r: seq<Bytes>)
    ensures r == ms <==> [] !in ms
  {
    if ms == [] || ms[0] == [] then []
    else
      var r := BeforeEmpty(ms[1..]);
      assert ms == [ms[0]] + ms[1..];
      assert ([ms[0]] + r)[1..] == r;
      [ms[0]] + r
  }

  lemma {:induction false} SplitOneRecord(m: Bytes, rest: Bytes)
    requires |m| < 0x1_0000_0000
    ensures Split(Le32(|m|) + m + rest) == if m == [] then [] else [m] + Split(rest)
  {
    var b := Le32(|m|) + m + rest;
    assert b == Le32(|m|) + (m + rest);
    Le32RoundTrip(|m|, m + rest);
    assert b[4..4 + |m|] == m;
    assert b[4 + |m|..] == rest;
  }

  lemma {:induction false} SplitRecords(ms: seq<Bytes>)
    requires forall m <- ms :: |m| < 0x1_0000_0000
    ensures Split(Records(ms)) == BeforeEmpty(ms)
  {
    if ms != [] {
      SplitOneRecord(ms[0], Records(ms[1..]));
      SplitRecords(ms[1..]);
    }
  }

  /** Whatever follows the records of messages that are not empty, they are read first. */
  lemma {:induction false} SplitPrefix(ms: seq<Bytes>, tail: Bytes)
    requires forall m <- ms :: 0 < |m| < 0x1_0000_0000
    ensures Split(Records(ms) + tail) == ms + Split(tail)
  {
    if ms == [] {
      assert Records(ms) + tail == tail && ms + Split(tail) == Split(tail);
    } else {
      var rest := Records(ms[1..]) + tail;
      Assoc(Le32(|ms[0]|) + ms[0], Records(ms[1..]), tail);
      SplitOneRecord(ms[0], rest);
      SplitPrefix(ms[1..], tail);
      Assoc([ms[0]], ms[1..], Split(tail));
      assert [ms[0]] + ms[1..] == ms;
    }
  }

  /** A record cut off anywhere at the end of a frame is dropped, and the ones before it are not. */
  lemma {:induction false} TruncatedTailDropped(ms: seq<Bytes>, m: Bytes, k: nat)
    requires (forall x <- ms :: 0 < |x| < 0x1_0000_0000) && |m| < 0x1_0000_0000 && k < 4 + |m|
    ensures Split(Records(ms) + (Le32(|m|) + m)[..k]) == ms
  {
    var cut := (Le32(|m|) + m)[..k];
    SplitPrefix(ms, cut);
    if k >= 4 {
      assert cut == Le32(|m|) + m[..k - 4];
      Le32RoundTrip(|m|, m[..k - 4]);
    }
    assert Split(cut) == [];
  }

  /** The two magics, byte by byte. */
  lemma {:induction false} MagicsExactly(b: Bytes)
    ensures StartsWith(b, TAK_MAGIC) <==> |b| >= 3 && b[0] == 0xbf && b[1] == 0x01 && b[2] == 0xbf
    ensures StartsWith(b, BATCH_MAGIC) <==> |b| >= 3 && b[0] == 0xbf && b[1] == 0x02 && b[2] == 0xbf
  {
    if |b| >= 3 {
      assert b[..3] == [b[0], b[1], b[2]];
    }
  }

  /** What a shared frame carries: the messages before the first empty one. */
  lemma {:induction false} BatchRead(g: Group)
    requires ValidGroup(g) && g.Batch? && |g.messages| > 1
    ensures SplitSend(EncodeGroup(g)) == Protos(BeforeEmpty(g.messages))
  {
    LengthFieldNeverOverflows(g.messages);
    assert (BATCH_MAGIC + Records(g.messages))[3..] == Records(g.messages);
    SplitRecords(g.messages);
  }

  /** A message that is not empty and does not start like a batch frame. */
  ghost predicate Plain(m: Bytes) {
    m != [] && !StartsWith(m, BATCH_MAGIC)
  }

  /** A send of plain messages carries exactly its contents. */
  lemma {:induction false} GroupRead(g: Group)
    requires ValidGroup(g) && (g.Batch? ==> forall m <- g.messages :: Plain(m))
    ensures SplitSend(EncodeGroup(g)) == Contents(g)
  {
    if g.Batch? {
      var ms := g.messages;
      if |ms| > 1 {
        BatchRead(g);
        assert BeforeEmpty(ms) == ms;
      } else {
        assert Plain(ms[0]) && EncodeGroup(g) == Binary(ms[0]);
        assert ms == [ms[0]];
      }
    }
  }

  lemma {:induction false} GroupsRead(gs: seq<Group>)
    requires forall g <- gs :: ValidGroup(g) && (g.Batch? ==> forall m <- g.messages :: Plain(m))
    ensures SplitAll(Encode(gs)) == Flatten(gs)
  {
    if gs != [] {
      GroupRead(gs[0]);
      GroupsRead(gs[1..]);
    }
  }

  ghost predicate AllPlain(items: seq<Item>) {
    forall it <- items :: it.Proto? ==> Plain(it.frame)
  }

  lemma {:induction false} GroupsArePlain(items: seq<Item>, g: Group)
    requires AllPlain(items) && g in Greedy(items, []) && g.Batch?
    ensures forall m <- g.messages :: Plain(m)
  {
    GreedyKeepsOrder(items, []);
    assert Protos([]) + Visible(items) == Visible(items);
    forall m <- g.messages ensures Plain(m) {
      MessageComesFromItems(Greedy(items, []), g, m);
      VisibleIsSubset(items, Proto(m));
    }
  }

  /** The documented format loses nothing: when no message is empty or starts with the batch magic,
      splitting all sends gives back the visible items, in order, byte for byte. */
  lemma {:induction false} FormatRoundTrip(items: seq<Item>)
    requires AllPlain(items)
    ensures SplitAll(Coalesced(items)) == Visible(items)
  {
    var gs := Greedy(items, []);
    GreedyGroupsAreValid(items, []);
    GreedyKeepsOrder(items, []);
    assert Protos([]) + Visible(items) == Visible(items);
    forall g <- gs ensures g.Batch? ==> forall m <- g.messages :: Plain(m) {
      if g.Batch? {
        GroupsArePlain(items, g);
      }
    }
    GroupsRead(gs);
  }

  lemma {:induction false} DecodeIsReadable(ss: seq<Send>)
    ensures Decode(ss) == Readable(SplitAll(ss))
  {
    if ss != [] {
      DecodeIsReadable(ss[1..]);
      ReadableAppend(SplitSend(ss[0]), SplitAll(ss[1..]));
    }
  }

  /** Of such input the browser reads exactly the alerts and the TAK messages, in order. */
  lemma {:induction false} ReadsTakMessages(items: seq<Item>)
    requires AllPlain(items)
    ensures Decode(Coalesced(items)) == Readable(Visible(items))
  {
    FormatRoundTrip(items);
    DecodeIsReadable(Coalesced(items));
  }

  lemma {:induction false} ReadableWhenTak(items: seq<Item>)
    requires TakFramed(items)
    ensures Readable(items) == items
  {
    if items != [] {
      assert items[0] in items;
      ReadableWhenTak(items[1..]);
    }
  }

  /** TAK messages are never empty and never imitate a batch frame, so they always survive. */
  lemma {:induction false} RoundTrip(items: seq<Item>)
    requires TakFramed(items)
    ensures Decode(Coalesced(items)) == Visible(items)
  {
    forall it | it in items && it.Proto? ensures Plain(it.frame) {
      assert it.frame[..3][1] == TAK_MAGIC[1];
    }
    ReadsTakMessages(items);
    forall it <- Visible(items) ensures it.Proto? ==> StartsWith(it.frame, TAK_MAGIC) {
      VisibleIsSubset(items, it);
    }
    ReadableWhenTak(Visible(items));
  }

  lemma {:induction false} ProtosAreVisible(items: seq<Item>, it: Item)
    requires it in items && it.Proto?
    ensures it in Visible(items)
  {
    if it != items[0] {
      ProtosAreVisible(items[1..], it);
    }
  }

  /** For every input: the browser reads back exactly the visible items, in order, if and only if
      every message is a TAK message. */
  lemma {:induction false} RoundTripExactly(items: seq<Item>)
    ensures Decode(Coalesced(items)) == Visible(items) <==> TakFramed(items)
  {
    if TakFramed(items) {
      RoundTrip(items);
    } else {
      var it :| it in items && it.Proto? && !StartsWith(it.frame, TAK_MAGIC);
      ProtosAreVisible(items, it);
      DecodeIsReadable(Coalesced(items));
      ReadableIsTak(SplitAll(Coalesced(items)));
    }
  }

  /** An empty message in a shared frame costs more than itself: the browser drops all that follows. */
  lemma {:induction false} EmptyMessageBreaksRoundTrip()
    ensures var items := [Proto([]), Proto(TAK_MAGIC)];
            Decode(Coalesced(items)) == [] != Visible(items)
  {
    var items := [Proto([]), Proto(TAK_MAGIC)];
    var ms: seq<Bytes> := [[], TAK_MAGIC];
    assert items[1..] == [Proto(TAK_MAGIC)] && items[1..][1..] == [];
    assert ms[..1] == [[]] && TotalBytes([[]]) == TotalBytes([[]][..0]) + 0;
    assert [[]] + [TAK_MAGIC] == ms;
    assert Greedy(items, []) == Greedy(items[1..], [[]]) == [Batch(ms)];
    GreedyGroupsAreValid(items, []);
    BatchRead(Batch(ms));
    assert BeforeEmpty(ms) == [];
    assert Encode([Batch(ms)]) == [EncodeGroup(Batch(ms))] + Encode([]);
    assert Decode(Coalesced(items)) == Readable(Protos([])) + Decode([]);
    VisibleHead(items);
  }
}
