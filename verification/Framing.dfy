/** The sending half of the wire format of the live-track WebSocket: how the API groups
    queued messages into sends. */
module Framing {
  import opened Collections

  type Byte = b: int | 0 <= b < 256
  type Bytes = seq<Byte>

  /** A queued item: one TAK message, or a tagged tuple such as ("alert", json). */
  datatype Item = Proto(frame: Bytes) | Tagged(kind: string, payload: Bytes)

  /** One WebSocket send. */
  datatype Send = Binary(data: Bytes) | Text(payload: Bytes)

  /** What one send carries: a run of messages, or a single alert. */
  datatype Group = Batch(messages: seq<Bytes>) | Notice(payload: Bytes)

  const BATCH_MAGIC: Bytes := [0xbf, 0x02, 0xbf]
  const MAX_BATCH_MSGS: nat := 128
  const MAX_BATCH_BYTES: nat := 60_000

  function TotalBytes(ms: seq<Bytes>): nat {
    if ms == [] then 0 else TotalBytes(ms[..|ms| - 1]) + |ms[|ms| - 1]|
  }

  /** A run of messages that may share a send: alone, or within both caps. */
  ghost predicate Fits(ms: seq<Bytes>) {
    |ms| <= 1 || (|ms| <= MAX_BATCH_MSGS && TotalBytes(ms) <= MAX_BATCH_BYTES)
  }

  ghost predicate ValidGroup(g: Group) {
    g.Batch? ==> g.messages != [] && Fits(g.messages)
  }

  // ---------------------------------------------------------------------------
  // Encoding
  // ---------------------------------------------------------------------------

  /** The `width` low bytes of `n`, least significant first. */
  function LittleEndian(n: nat, width: nat): (bs: Bytes)
    ensures |bs| == width
    decreases width
  {
    if width == 0 then [] else [n % 256] + LittleEndian(n / 256, width - 1)
  }

  function Le32(n: nat): (bs: Bytes)
    requires n < 0x1_0000_0000
    ensures |bs| == 4
  {
    LittleEndian(n, 4)
  }

  /** The length-prefixed records of a batch frame. */
  function Records(ms: seq<Bytes>): Bytes
    requires forall m <- ms :: |m| < 0x1_0000_0000
  {
    if ms == [] then [] else Le32(|ms[0]|) + ms[0] + Records(ms[1..])
  }

  lemma {:induction false} MemberWithinTotal(ms: seq<Bytes>, m: Bytes)
    requires m in ms
    ensures |m| <= TotalBytes(ms)
  {
    var last := ms[|ms| - 1];
    if m != last {
      assert ms == ms[..|ms| - 1] + [last];
      MemberWithinTotal(ms[..|ms| - 1], m);
    }
  }

  /** The 4-byte length field cannot overflow: a message of 4 GiB or more always travels alone. */
  lemma {:induction false} LengthFieldNeverOverflows(ms: seq<Bytes>)
    requires Fits(ms) && |ms| > 1
    ensures forall m <- ms :: |m| <= MAX_BATCH_BYTES < 0x1_0000_0000
  {
    forall m | m in ms ensures |m| <= MAX_BATCH_BYTES {
      MemberWithinTotal(ms, m);
    }
  }

  function EncodeGroup(g: Group): Send
    requires ValidGroup(g)
  {
    match g
    case Notice(d) => Text(d)
    case Batch(ms) =>
      if |ms| == 1 then Binary(ms[0])
      else LengthFieldNeverOverflows(ms); Binary(BATCH_MAGIC + Records(ms))
  }

  function Encode(gs: seq<Group>): seq<Send>
    requires forall g <- gs :: ValidGroup(g)
  {
    if gs == [] then [] else [EncodeGroup(gs[0])] + Encode(gs[1..])
  }

  /** Every group is one send. */
  lemma {:induction false} EncodeLength(gs: seq<Group>)
    requires forall g <- gs :: ValidGroup(g)
    ensures |Encode(gs)| == |gs|
  {
    if gs != [] {
      EncodeLength(gs[1..]);
    }
  }

  lemma {:induction false} EncodeAppend(a: seq<Group>, b: seq<Group>)
    requires forall g <- a + b :: ValidGroup(g)
    ensures (forall g <- a :: ValidGroup(g)) && (forall g <- b :: ValidGroup(g))
    ensures Encode(a + b) == Encode(a) + Encode(b)
  {
    assert forall g <- a :: g in a + b;
    assert forall g <- b :: g in a + b;
    if a == [] {
      assert a + b == b;
    } else {
      assert (a + b)[1..] == a[1..] + b;
      EncodeAppend(a[1..], b);
    }
  }

  // ---------------------------------------------------------------------------
  // Grouping: the greedy rule
  // ---------------------------------------------------------------------------

  function Flush(pending: seq<Bytes>): seq<Group> {
    if pending == [] then [] else [Batch(pending)]
  }

  predicate MustFlush(pending: seq<Bytes>, m: Bytes) {
    TotalBytes(pending) + |m| > MAX_BATCH_BYTES || |pending| >= MAX_BATCH_MSGS
  }

  /** The groups sent for `items` when `pending` messages are already waiting. */
  function Greedy(items: seq<Item>, pending: seq<Bytes>): seq<Group> {
    if items == [] then Flush(pending)
    else match items[0]
      case Tagged(kind, d) =>
        if kind == "alert" then Flush(pending) + [Notice(d)] + Greedy(items[1..], [])
        else Greedy(items[1..], pending)
      case Proto(m) =>
        if MustFlush(pending, m) then Flush(pending) + Greedy(items[1..], [m])
        else Greedy(items[1..], pending + [m])
  }

  lemma {:induction false} AppendKeepsFits(pending: seq<Bytes>, m: Bytes)
    requires Fits(pending) && !MustFlush(pending, m)
    ensures Fits(pending + [m])
    ensures TotalBytes(pending + [m]) == TotalBytes(pending) + |m|
  {
    assert (pending + [m])[..|pending|] == pending;
  }

  ghost predicate AllValid(gs: seq<Group>) {
    forall g <- gs :: ValidGroup(g)
  }

  lemma {:induction false} GreedyGroupsAreValid(items: seq<Item>, pending: seq<Bytes>)
    requires Fits(pending)
    ensures forall g <- Greedy(items, pending) :: ValidGroup(g)
  {
    if items == [] {
      assert Flush(pending) + [] == Flush(pending);
    } else {
      var rest := items[1..];
      match items[0]
      case Tagged(kind, d) =>
        GreedyGroupsAreValid(rest, if kind == "alert" then [] else pending);
        if kind == "alert" {
          Assoc(Flush(pending), [Notice(d)], Greedy(rest, []));
        }
      case Proto(m) =>
        if MustFlush(pending, m) {
          GreedyGroupsAreValid(rest, [m]);
        } else {
          AppendKeepsFits(pending, m);
          GreedyGroupsAreValid(rest, pending + [m]);
        }
    }
  }

  /** The sends still to come when `pending` messages are waiting. */
  function Sends(items: seq<Item>, pending: seq<Bytes>): seq<Send>
    requires Fits(pending)
  {
    GreedyGroupsAreValid(items, pending);
    Encode(Greedy(items, pending))
  }

  /** coalesce_outgoing as a function of the items: the sends of the greedy groups. */
  function Coalesced(items: seq<Item>): seq<Send> {
    Sends(items, [])
  }

  function FlushSends(pending: seq<Bytes>): seq<Send>
    requires Fits(pending)
  {
    if pending == [] then [] else [EncodeGroup(Batch(pending))]
  }

  lemma {:induction false} SendsAtEnd(pending: seq<Bytes>)
    requires Fits(pending)
    ensures Sends([], pending) == FlushSends(pending)
  {
    EncodeAppend(Flush(pending), []);
  }

  lemma {:induction false} SendsOfAlert(items: seq<Item>, pending: seq<Bytes>)
    requires Fits(pending)
    requires items != [] && items[0].Tagged? && items[0].kind == "alert"
    ensures Sends(items, pending) == FlushSends(pending) + [Text(items[0].payload)] + Sends(items[1..], [])
  {
    var n := Notice(items[0].payload);
    var tail := Greedy(items[1..], []);
    GreedyGroupsAreValid(items, pending);
    GreedyGroupsAreValid(items[1..], []);
    Assoc(Flush(pending), [n], tail);
    EncodeAppend(Flush(pending), [n] + tail);
    EncodeAppend([n], tail);
    Assoc(FlushSends(pending), [Text(items[0].payload)], Sends(items[1..], []));
  }

  lemma {:induction false} SendsOfOverflow(items: seq<Item>, pending: seq<Bytes>)
    requires Fits(pending)
    requires items != [] && items[0].Proto? && MustFlush(pending, items[0].frame)
    ensures Sends(items, pending) == FlushSends(pending) + Sends(items[1..], [items[0].frame])
  {
    var tail := Greedy(items[1..], [items[0].frame]);
    GreedyGroupsAreValid(items, pending);
    GreedyGroupsAreValid(items[1..], [items[0].frame]);
    EncodeAppend(Flush(pending), tail);
  }

  lemma {:induction false} SendsOfNext(items: seq<Item>, pending: seq<Bytes>)
    requires Fits(pending)
    requires items != [] && items[0].Proto? && !MustFlush(pending, items[0].frame)
    ensures Fits(pending + [items[0].frame])
    ensures TotalBytes(pending + [items[0].frame]) == TotalBytes(pending) + |items[0].frame|
    ensures Sends(items, pending) == Sends(items[1..], pending + [items[0].frame])
  {
    AppendKeepsFits(pending, items[0].frame);
  }

  lemma {:induction false} SendsOfSkipped(items: seq<Item>, pending: seq<Bytes>)
    requires Fits(pending)
    requires items != [] && items[0].Tagged? && items[0].kind != "alert"
    ensures Sends(items, pending) == Sends(items[1..], pending)
  {
  }

  lemma {:induction false} RecordsFrom(ms: seq<Bytes>, k: nat)
    requires k < |ms| && forall m <- ms :: |m| < 0x1_0000_0000
    ensures Records(ms[k..]) == (Le32(|ms[k]|) + ms[k]) + Records(ms[k + 1..])
  {
    assert ms[k..][1..] == ms[k + 1..];
  }

  /** The nested flush(): one send for the pending run, none if nothing is pending. */
  method FlushPending(pending: seq<Bytes>) returns (out: seq<Send>)
    requires Fits(pending)
    ensures out == FlushSends(pending)
  {
    if |pending| == 0 {
      out := [];
    } else if |pending| == 1 {
      out := [Binary(pending[0])];
    } else {
      LengthFieldNeverOverflows(pending);
      var parts := [];
      assert pending[0..] == pending;
      for k := 0 to |pending|
        invariant parts + Records(pending[k..]) == Records(pending)
      {
        RecordsFrom(pending, k);
        Assoc(parts, Le32(|pending[k]|) + pending[k], Records(pending[k + 1..]));
        parts := parts + (Le32(|pending[k]|) + pending[k]);
      }
      assert pending[|pending|..] == [] && parts + [] == parts;
      out := [Binary(BATCH_MAGIC + parts)];
    }
  }

  /** One round of the loop: what is sent now, and what is pending afterwards. */
  method AddItem(it: Item, pending: seq<Bytes>, pendingBytes: nat, ghost left: seq<Item>)
    returns (out: seq<Send>, pending': seq<Bytes>, pendingBytes': nat)
    requires Fits(pending) && pendingBytes == TotalBytes(pending)
    requires left != [] && left[0] == it
    ensures Fits(pending') && pendingBytes' == TotalBytes(pending')
    ensures Sends(left, pending) == out + Sends(left[1..], pending')
  {
    out, pending', pendingBytes' := [], pending, pendingBytes;
    match it {
      case Tagged(kind, d) =>
        if kind == "alert" {
          SendsOfAlert(left, pending);
          out := FlushPending(pending);
          out := out + [Text(d)];
          pending', pendingBytes' := [], 0;
        } else {
          SendsOfSkipped(left, pending);
        }
      case Proto(m) =>
        if pendingBytes + |m| > MAX_BATCH_BYTES || |pending| >= MAX_BATCH_MSGS {
          SendsOfOverflow(left, pending);
          out := FlushPending(pending);
          pending', pendingBytes' := [], 0;
        } else {
          SendsOfNext(left, pending);
        }
        assert TotalBytes(pending' + [m]) == pendingBytes' + |m| by {
          assert (pending' + [m])[..|pending'|] == pending';
        }
        assert [] + [m] == [m];
        pending', pendingBytes' := pending' + [m], pendingBytes' + |m|;
    }
  }

  /** The loop of coalesce_outgoing, with its mutable `pending` and `pending_bytes`. */
  method CoalesceOutgoing(items: seq<Item>) returns (sends: seq<Send>)
    ensures sends == Coalesced(items)
  {
    sends := [];
    var pending: seq<Bytes> := [];
    var pendingBytes := 0;
    ghost var left := items;
    for i := 0 to |items|
      invariant left == items[i..]
      invariant Fits(pending) && pendingBytes == TotalBytes(pending)
      invariant sends + Sends(left, pending) == Coalesced(items)
    {
      var out, next, nextBytes := AddItem(items[i], pending, pendingBytes, left);
      left := left[1..];
      Assoc(sends, out, Sends(left, next));
      sends, pending, pendingBytes := sends + out, next, nextBytes;
    }
    SendsAtEnd(pending);
    var last := FlushPending(pending);
    sends := sends + last;
  }

  // ---------------------------------------------------------------------------
  // What the groups carry: the visible items, in order
  // ---------------------------------------------------------------------------

  function Protos(ms: seq<Bytes>): (r: seq<Item>)
    ensures |r| == |ms|
    ensures forall i | 0 <= i < |ms| :: r[i] == Proto(ms[i])
  {
    seq(|ms|, i requires 0 <= i < |ms| => Proto(ms[i]))
  }

  /** The items that reach the wire at all: tuples with another tag are skipped. */
  function Visible(items: seq<Item>): seq<Item> {
    if items == [] then []
    else (if items[0].Tagged? && items[0].kind != "alert" then [] else [items[0]]) + Visible(items[1..])
  }

  function Contents(g: Group): seq<Item> {
    match g
    case Notice(d) => [Tagged("alert", d)]
    case Batch(ms) => Protos(ms)
  }

  function Flatten(gs: seq<Group>): seq<Item> {
    if gs == [] then [] else Contents(gs[0]) + Flatten(gs[1..])
  }

  lemma {:induction false} FlattenAppend(a: seq<Group>, b: seq<Group>)
    ensures Flatten(a + b) == Flatten(a) + Flatten(b)
  {
    if a == [] {
      assert a + b == b;
    } else {
      assert (a + b)[1..] == a[1..] + b;
      FlattenAppend(a[1..], b);
      assert Contents(a[0]) + (Flatten(a[1..]) + Flatten(b)) == Contents(a[0]) + Flatten(a[1..]) + Flatten(b);
    }
  }

  lemma {:induction false} FlattenOne(g: Group)
    ensures Flatten([g]) == Contents(g)
  {
    assert [g][1..] == [];
  }

  lemma {:induction false} FlattenFlush(pending: seq<Bytes>, gs: seq<Group>)
    ensures Flatten(Flush(pending) + gs) == Protos(pending) + Flatten(gs)
  {
    FlattenAppend(Flush(pending), gs);
    if pending != [] {
      FlattenOne(Batch(pending));
    }
  }

  lemma {:induction false} VisibleHead(items: seq<Item>)
    requires items != [] && (items[0].Proto? || items[0].kind == "alert")
    ensures Visible(items) == [items[0]] + Visible(items[1..])
  {
  }

  lemma {:induction false} FlattenNotice(payload: Bytes, gs: seq<Group>)
    ensures Flatten([Notice(payload)] + gs) == [Tagged("alert", payload)] + Flatten(gs)
  {
    FlattenAppend([Notice(payload)], gs);
    FlattenOne(Notice(payload));
  }

  /** Grouping neither loses, duplicates nor reorders anything that is visible. */
  lemma {:induction false} GreedyKeepsOrder(items: seq<Item>, pending: seq<Bytes>)
    ensures Flatten(Greedy(items, pending)) == Protos(pending) + Visible(items)
  {
    if items == [] {
      FlattenFlush(pending, []);
      assert Flush(pending) + [] == Flush(pending);
    } else {
      var rest := items[1..];
      match items[0]
      case Tagged(kind, d) =>
        GreedyKeepsOrder(rest, if kind == "alert" then [] else pending);
        if kind == "alert" {
          assert Protos([]) + Visible(rest) == Visible(rest);
        } else {
          assert [] + Visible(rest) == Visible(rest);
        }
      case Proto(m) =>
        GreedyProtoKeepsOrder(items, pending, m);
    }
  }

  lemma {:induction false} GreedyProtoKeepsOrder(items: seq<Item>, pending: seq<Bytes>, m: Bytes)
    requires items != [] && items[0] == Proto(m)
    ensures Flatten(Greedy(items, pending)) == Protos(pending) + Visible(items)
    decreases items, pending, 0
  {
    var rest := items[1..];
    VisibleHead(items);
    assert Protos([m]) == [Proto(m)];
    if MustFlush(pending, m) {
      GreedyKeepsOrder(rest, [m]);
      FlattenFlush(pending, Greedy(rest, [m]));
    } else {
      GreedyKeepsOrder(rest, pending + [m]);
      assert Protos(pending + [m]) == Protos(pending) + [Proto(m)];
      Assoc(Protos(pending), [Proto(m)], Visible(rest));
    }
  }

  lemma {:induction false} MessageComesFromItems(gs: seq<Group>, g: Group, m: Bytes)
    requires g in gs && g.Batch? && m in g.messages
    ensures Proto(m) in Flatten(gs)
  {
    if gs[0] == g {
      var i :| 0 <= i < |g.messages| && g.messages[i] == m;
      assert Protos(g.messages)[i] == Proto(m);
      assert Flatten(gs)[i] == Proto(m);
    } else {
      MessageComesFromItems(gs[1..], g, m);
    }
  }

  lemma {:induction false} VisibleIsSubset(items: seq<Item>, it: Item)
    requires it in Visible(items)
    ensures it in items
  {
    if it != items[0] {
      VisibleIsSubset(items[1..], it);
    }
  }

  // ---------------------------------------------------------------------------
  // The size of a shared frame
  // ---------------------------------------------------------------------------

  lemma {:induction false} TotalCons(m: Bytes, ms: seq<Bytes>)
    ensures TotalBytes([m] + ms) == |m| + TotalBytes(ms)
    decreases |ms|
  {
    if ms == [] {
      assert [m] + ms == [m] && [m][..0] == [];
      assert TotalBytes([]) == 0;
    } else {
      assert ([m] + ms)[..|ms|] == [m] + ms[..|ms| - 1];
      TotalCons(m, ms[..|ms| - 1]);
    }
  }

  lemma {:induction false} RecordsLength(ms: seq<Bytes>)
    requires forall m <- ms :: |m| < 0x1_0000_0000
    ensures |Records(ms)| == 4 * |ms| + TotalBytes(ms)
  {
    if ms != [] {
      assert ms == [ms[0]] + ms[1..];
      RecordsLength(ms[1..]);
      TotalCons(ms[0], ms[1..]);
    }
  }

  const MAX_FRAME_BYTES: nat := 3 + 4 * MAX_BATCH_MSGS + MAX_BATCH_BYTES

  /** The magic and four bytes per message come on top of the payload, so that a shared frame may
      exceed the cap by up to 515 bytes, and does exactly when the payload leaves them no room. */
  lemma {:induction false} FrameSize(g: Group)
    requires ValidGroup(g) && g.Batch? && |g.messages| > 1
    ensures EncodeGroup(g).Binary?
    ensures |EncodeGroup(g).data| == 3 + 4 * |g.messages| + TotalBytes(g.messages)
    ensures |EncodeGroup(g).data| <= MAX_FRAME_BYTES == 60_515
    ensures |EncodeGroup(g).data| > MAX_BATCH_BYTES
            <==> TotalBytes(g.messages) > MAX_BATCH_BYTES - 3 - 4 * |g.messages|
  {
    LengthFieldNeverOverflows(g.messages);
    RecordsLength(g.messages);
  }

  lemma {:induction false} EncodeAt(gs: seq<Group>, i: nat)
    requires i < |gs| && forall g <- gs :: ValidGroup(g)
    ensures |Encode(gs)| == |gs| && gs[i] in gs && Encode(gs)[i] == EncodeGroup(gs[i])
  {
    EncodeLength(gs);
    if i > 0 {
      EncodeAt(gs[1..], i - 1);
    }
  }

  /** For every input and each of its sends: an alert's text, a message of the input by itself, or a
      shared frame, whose size is its payload, the magic, and four bytes for each of its messages. */
  lemma {:induction false} SendSize(items: seq<Item>, i: nat)
    requires i < |Coalesced(items)|
    ensures var gs, send := Greedy(items, []), Coalesced(items)[i];
            && |gs| == |Coalesced(items)|
            && match gs[i]
               case Notice(d) => send == Text(d)
               case Batch(ms) =>
                 && send.Binary?
                 && (|ms| == 1 ==> Proto(send.data) in items)
                 && (|ms| > 1 ==>
                       && |send.data| == 3 + 4 * |ms| + TotalBytes(ms) <= 60_515
                       && (|send.data| > MAX_BATCH_BYTES <==> TotalBytes(ms) > MAX_BATCH_BYTES - 3 - 4 * |ms|))
  {
    var gs := Greedy(items, []);
    GreedyGroupsAreValid(items, []);
    EncodeLength(gs);
    EncodeAt(gs, i);
    assert ValidGroup(gs[i]);
    if gs[i].Batch? && |gs[i].messages| > 1 {
      FrameSize(gs[i]);
    } else if gs[i].Batch? {
      GreedyKeepsOrder(items, []);
      assert Protos([]) + Visible(items) == Visible(items);
      MessageComesFromItems(gs, gs[i], gs[i].messages[0]);
      VisibleIsSubset(items, Proto(gs[i].messages[0]));
    }
  }

  /** So frames do exceed the cap: two messages of 60,000 bytes together go out as one of 60,011. */
  lemma {:induction false} FrameExceedsCap(a: Bytes, b: Bytes)
    requires |a| + |b| == MAX_BATCH_BYTES
    ensures |Coalesced([Proto(a), Proto(b)])| == 1
    ensures Coalesced([Proto(a), Proto(b)])[0].Binary? && |Coalesced([Proto(a), Proto(b)])[0].data| == 60_011
  {
    var items := [Proto(a), Proto(b)];
    var ms := [a, b];
    assert items[1..] == [Proto(b)] && items[1..][1..] == [];
    assert [] + [a] == [a] && [a] + [b] == ms;
    assert Greedy(items, []) == Greedy([Proto(b)], [a]) == Greedy([], ms) == [Batch(ms)];
    GreedyGroupsAreValid(items, []);
    EncodeAt([Batch(ms)], 0);
    FrameSize(Batch(ms));
  }

  lemma {:induction false} TotalOfEqual(m: Bytes, n: nat)
    ensures TotalBytes(seq(n, i => m)) == n * |m|
    decreases n
  {
    if n > 0 {
      assert seq(n, i => m)[..n - 1] == seq(n - 1, i => m);
      TotalOfEqual(m, n - 1);
      assert n * |m| == (n - 1) * |m| + |m|;
    }
  }

  /** The bound of 60,515 bytes is reached, by 128 messages that fill the payload cap. */
  lemma {:induction false} LargestFrame(m: Bytes, last: Bytes)
    requires |m| == 468 && |last| == 564
    ensures var ms := seq(127, i => m) + [last];
            ValidGroup(Batch(ms)) && EncodeGroup(Batch(ms)).Binary? && |EncodeGroup(Batch(ms)).data| == MAX_FRAME_BYTES
  {
    var front := seq(127, i => m);
    var ms := front + [last];
    TotalOfEqual(m, 127);
    assert ms[..127] == front;
    FrameSize(Batch(ms));
  }

  // ---------------------------------------------------------------------------
  // The greedy rule uses the fewest sends
  // ---------------------------------------------------------------------------

  /** A grouping the wire format allows: order kept, alerts alone, shared frames within the caps. */
  ghost predicate IsGrouping(gs: seq<Group>, items: seq<Item>) {
    && (forall g <- gs :: ValidGroup(g))
    && Flatten(gs) == Visible(items)
  }

  function Cost(items: seq<Item>, pending: seq<Bytes>): nat {
    |Greedy(items, pending)|
  }

  lemma {:induction false} TotalOfSuffix(p: seq<Bytes>, k: nat)
    requires k <= |p|
    ensures TotalBytes(p[k..]) <= TotalBytes(p)
  {
    if k < |p| {
      TotalOfSuffix(p[..|p| - 1], k);
      assert p[k..][..|p[k..]| - 1] == p[..|p| - 1][k..];
    }
  }

  /** A shorter pending run is never worse, and never better by more than one send. */
  lemma {:induction false} ShorterPendingNeverWorse(items: seq<Item>, p: seq<Bytes>, k: nat)
    requires k < |p|
    ensures Cost(items, p[k..]) <= Cost(items, p) <= 1 + Cost(items, p[k..])
    decreases |items|
  {
    var q := p[k..];
    TotalOfSuffix(p, k);
    if items != [] {
      var rest := items[1..];
      match items[0]
      case Tagged(kind, d) =>
        if kind != "alert" {
          ShorterPendingNeverWorse(rest, p, k);
        }
      case Proto(m) =>
        assert (p + [m])[k..] == q + [m];
        assert (p + [m])[|p|..] == [m] && (q + [m])[|q|..] == [m];
        if !MustFlush(p, m) {
          ShorterPendingNeverWorse(rest, p + [m], k);
        } else if !MustFlush(q, m) {
          ShorterPendingNeverWorse(rest, q + [m], |q|);
        }
    }
  }

  lemma {:induction false} FlushingCostsAtMostOne(items: seq<Item>, p: seq<Bytes>)
    requires p != []
    ensures Cost(items, p) <= 1 + Cost(items, [])
    decreases |items|
  {
    if items != [] {
      match items[0]
      case Tagged(kind, d) =>
        if kind != "alert" {
          FlushingCostsAtMostOne(items[1..], p);
        }
      case Proto(m) =>
        assert [] + [m] == [m];
        assert (p + [m])[|p|..] == [m];
        if !MustFlush(p, m) {
          ShorterPendingNeverWorse(items[1..], p + [m], |p|);
        }
    }
  }

  lemma {:induction false} PrefixHasRoom(ms: seq<Bytes>, k: nat)
    requires Fits(ms) && k < |ms|
    ensures k > 0 ==> !MustFlush(ms[..k], ms[k])
  {
    TotalOfPrefix(ms, k + 1);
    assert ms[..k + 1][..k] == ms[..k];
  }

  lemma {:induction false} GreedyTakesNext(m: Bytes, tail: seq<Item>, pending: seq<Bytes>)
    requires pending == [] || !MustFlush(pending, m)
    ensures Greedy([Proto(m)] + tail, pending) == Greedy(tail, pending + [m])
  {
    assert ([Proto(m)] + tail)[1..] == tail;
    if pending == [] {
      assert pending + [m] == [m];
      assert Flush(pending) + Greedy(tail, [m]) == Greedy(tail, [m]);
    }
  }

  /** The greedy rule keeps any permitted run together. */
  lemma {:induction false} GreedyAbsorbs(ms: seq<Bytes>, k: nat, rest: seq<Item>)
    requires Fits(ms) && k <= |ms|
    ensures Greedy(Protos(ms[k..]) + rest, ms[..k]) == Greedy(rest, ms)
    decreases |ms| - k
  {
    if k == |ms| {
      assert Protos(ms[k..]) + rest == rest && ms[..k] == ms;
    } else {
      var tail := Protos(ms[k + 1..]) + rest;
      assert ms[k..][1..] == ms[k + 1..];
      assert Protos(ms[k..]) + rest == [Proto(ms[k])] + tail;
      PrefixHasRoom(ms, k);
      GreedyTakesNext(ms[k], tail, ms[..k]);
      assert ms[..k] + [ms[k]] == ms[..k + 1];
      GreedyAbsorbs(ms, k + 1, rest);
    }
  }

  lemma {:induction false} TotalOfPrefix(p: seq<Bytes>, k: nat)
    requires k <= |p|
    ensures TotalBytes(p[..k]) <= TotalBytes(p)
    decreases |p|
  {
    if k < |p| {
      TotalOfPrefix(p[..|p| - 1], k);
      assert p[..|p| - 1][..k] == p[..k];
    } else {
      assert p[..k] == p;
    }
  }

  lemma {:induction false} SkippedTuplesDoNotMatter(items: seq<Item>, pending: seq<Bytes>)
    ensures Greedy(items, pending) == Greedy(Visible(items), pending)
  {
    if items != [] {
      var rest, shown := items[1..], Visible(items);
      if items[0].Tagged? && items[0].kind != "alert" {
        assert shown == Visible(rest);
        SkippedTuplesDoNotMatter(rest, pending);
      } else {
        assert shown[0] == items[0] && shown[1..] == Visible(rest);
        match items[0]
        case Tagged(_, _) => SkippedTuplesDoNotMatter(rest, []);
        case Proto(m) =>
          SkippedTuplesDoNotMatter(rest, [m]);
          SkippedTuplesDoNotMatter(rest, pending + [m]);
      }
    }
  }

  lemma {:induction false} GreedyBeatsGroups(gs: seq<Group>)
    requires forall g <- gs :: ValidGroup(g)
    ensures Cost(Flatten(gs), []) <= |gs|
  {
    if gs != [] {
      var rest := Flatten(gs[1..]);
      assert ValidGroup(gs[0]);
      GreedyBeatsGroups(gs[1..]);
      match gs[0]
      case Notice(d) =>
        assert Flatten(gs)[1..] == rest;
      case Batch(ms) =>
        assert ms[0..] == ms && ms[..0] == [];
        GreedyAbsorbs(ms, 0, rest);
        FlushingCostsAtMostOne(rest, ms);
    }
  }

  /** coalesce_outgoing emits the minimum number of sends among all permitted groupings,
      and its own grouping is one of them. */
  lemma {:induction false} GreedyIsOptimal(items: seq<Item>)
    ensures IsGrouping(Greedy(items, []), items)
    ensures forall gs | IsGrouping(gs, items) :: |Coalesced(items)| <= |gs|
  {
    GreedyGroupsAreValid(items, []);
    GreedyKeepsOrder(items, []);
    assert Protos([]) + Visible(items) == Visible(items);
    forall gs | IsGrouping(gs, items) ensures |Coalesced(items)| <= |gs| {
      EncodeLength(Greedy(items, []));
      SkippedTuplesDoNotMatter(items, []);
      GreedyBeatsGroups(gs);
    }
  }
}
