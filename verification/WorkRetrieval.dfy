/** Chunked retrieval of archived mining work from peers.

    Messages are modelled after decoding.  What the bytes of a finished transfer mean (the proposal they
    decode to, its key and identifier) is a parameter. */
module WorkRetrieval {
  import opened Basics
  import opened Bytes

  const CHUNK: nat := 16384
  const MAX_PAYLOAD: nat := 65536
  const FIXED_PAYLOAD: nat := 121
  const MAX_PENDING: nat := 16
  const MAX_PER_PEER: nat := 2
  const MAX_RECEIVED: nat := 8
  const LIFETIME: nat := 60

  type NodeId = nat
  datatype WorkKey = WorkKey(height: U64, header: Hash256)
  datatype Slot = Slot(peer: NodeId, key: WorkKey)

  datatype Request = Request(key: WorkKey, offset: nat)
  /** A total of zero means the work was not found. */
  datatype Response = Response(request: Request, total: nat, chunk: ByteString)

  datatype Pending = Pending(started: U64, total: nat, finished: bool, bytes: ByteString)

  datatype Tables = Tables(pending: map<Slot, Pending>, received: map<WorkKey, ByteString>)

  /** How a complete payload is understood; none means it is malformed. */
  datatype Decoder = Decoder(keyOf: ByteString -> Option<WorkKey>, idOf: ByteString -> Hash256)

  datatype Received = Received(followup: Option<Request>, id: Option<Hash256>)

  predicate RequestOk(r: Request) {
    r.key.header != 0 && r.offset < MAX_PAYLOAD && r.offset % CHUNK == 0
  }

  predicate ResponseOk(r: Response) {
    && RequestOk(r.request)
    && if r.total == 0 then r.chunk == []
       else
         && FIXED_PAYLOAD <= r.total <= MAX_PAYLOAD && r.request.offset < r.total
         && |r.chunk| == Min(CHUNK, r.total - r.request.offset)
  }

  // ---- What the tables keep --------------------------------------------------------------------

  /** An active transfer holds whole chunks of a payload whose announced size it has not reached. */
  ghost predicate PendingOk(p: Pending) {
    if p.finished then p.bytes == []
    else
      && |p.bytes| % CHUNK == 0
      && (if p.total == 0 then p.bytes == [] else FIXED_PAYLOAD <= p.total <= MAX_PAYLOAD && |p.bytes| < p.total)
  }

  ghost function Active(pending: map<Slot, Pending>, peer: NodeId): set<Slot> {
    set slot | slot in pending && slot.peer == peer && !pending[slot].finished
  }

  /** The bounds that hold against any peer. */
  ghost predicate Bounded(t: Tables) {
    && |t.pending| <= MAX_PENDING && |t.received| <= MAX_RECEIVED
    && (forall peer :: |Active(t.pending, peer)| <= MAX_PER_PEER)
    && (forall slot | slot in t.pending :: PendingOk(t.pending[slot]) && slot.key.header != 0)
  }

  predicate Live(p: Pending, now: U64) { p.started <= now && now - p.started < LIFETIME }

  function Expired(t: Tables, now: U64): Tables {
    t.(pending := map slot | slot in t.pending && Live(t.pending[slot], now) :: t.pending[slot])
  }

  lemma SubMap(small: map<Slot, Pending>, big: map<Slot, Pending>, peer: NodeId)
    requires forall slot | slot in small :: slot in big && small[slot] == big[slot]
    ensures |small| <= |big| && |Active(small, peer)| <= |Active(big, peer)|
  {
    SubSet(small.Keys, big.Keys);
    SubSet(Active(small, peer), Active(big, peer));
  }

  lemma SubSet<T>(a: set<T>, b: set<T>)
    requires a <= b
    ensures |a| <= |b|
  {
    assert b == a + (b - a);
  }

  lemma ExpireBounded(t: Tables, now: U64)
    requires Bounded(t)
    ensures Bounded(Expired(t, now))
  {
    var t' := Expired(t, now);
    SubMap(t'.pending, t.pending, 0);
    forall peer
      ensures |Active(t'.pending, peer)| <= MAX_PER_PEER
    {
      SubMap(t'.pending, t.pending, peer);
    }
  }

  // ---- Starting a transfer ---------------------------------------------------------------------

  predicate KeyLess(a: WorkKey, b: WorkKey) {
    a.height < b.height || (a.height == b.height && a.header < b.header)
  }

  predicate SlotLess(a: Slot, b: Slot) {
    a.peer < b.peer || (a.peer == b.peer && KeyLess(a.key, b.key))
  }

  /** The finished entry that started first; among equals the first in map order. */
  ghost predicate Oldest(pending: map<Slot, Pending>, slot: Slot) {
    && slot in pending && pending[slot].finished
    && forall other | other in pending && pending[other].finished && other != slot ::
         || pending[slot].started < pending[other].started
         || (pending[slot].started == pending[other].started && SlotLess(slot, other))
  }

  ghost predicate NoneFinished(pending: map<Slot, Pending>) {
    forall slot | slot in pending :: !pending[slot].finished
  }

  /** The table after making room for one more entry. */
  ghost predicate MadeRoom(before: map<Slot, Pending>, after: map<Slot, Pending>) {
    if |before| < MAX_PENDING then after == before
    else exists slot :: Oldest(before, slot) && after == before - {slot}
  }

  /** Starting a transfer: refused, or one new entry with nothing received yet. */
  ghost predicate Begins(
    t: Tables, capable: bool, slot: Slot, now: U64, t': Tables, r: Outcome<Option<Request>>)
  {
    var live := Expired(t, now);
    if !capable then t' == t && r == Value(None)
    else if !RequestOk(Request(slot.key, 0)) then t' == t && r == Thrown
    else if slot.key in live.received || slot in live.pending
            || |Active(live.pending, slot.peer)| >= MAX_PER_PEER
            || (|live.pending| >= MAX_PENDING && NoneFinished(live.pending))
    then t' == live && r == Value(None)
    else
      && r == Value(Some(Request(slot.key, 0)))
      && t'.received == live.received
      && slot in t'.pending && t'.pending[slot] == Pending(now, 0, false, [])
      && MadeRoom(live.pending, t'.pending - {slot})
  }

  lemma MadeRoomFacts(before: map<Slot, Pending>, after: map<Slot, Pending>, peer: NodeId)
    requires MadeRoom(before, after) && |before| <= MAX_PENDING
    ensures |after| < MAX_PENDING && |Active(after, peer)| <= |Active(before, peer)|
    ensures forall slot | slot in after :: slot in before && after[slot] == before[slot]
    ensures forall slot | slot in before && !before[slot].finished :: slot in after
  {
    if |before| >= MAX_PENDING {
      var slot :| Oldest(before, slot) && after == before - {slot};
      assert after.Keys == before.Keys - {slot};
    }
    SubMap(after, before, peer);
  }

  lemma AddedActive(pending: map<Slot, Pending>, slot: Slot, p: Pending, peer: NodeId)
    requires slot !in pending && !p.finished
    ensures var more := pending[slot := p];
      && |more| == |pending| + 1
      && |Active(more, peer)| == |Active(pending, peer)| + if slot.peer == peer then 1 else 0
  {
    AddedSlot(pending, slot, p, peer);
    hide Active;
    var more := pending[slot := p];
    assert more.Keys == pending.Keys + {slot};
  }

  lemma AddedSlot(pending: map<Slot, Pending>, slot: Slot, p: Pending, peer: NodeId)
    requires slot !in pending && !p.finished
    ensures slot !in Active(pending, peer)
    ensures Active(pending[slot := p], peer) ==
      if slot.peer == peer then Active(pending, peer) + {slot} else Active(pending, peer)
  {
  }

  lemma StartedCounts(before: map<Slot, Pending>, after: map<Slot, Pending>, slot: Slot, now: U64, peer: NodeId)
    requires MadeRoom(before, after - {slot}) && |before| <= MAX_PENDING
    requires slot in after && after[slot] == Pending(now, 0, false, [])
    ensures |after| <= MAX_PENDING
    ensures |Active(after, peer)| <= |Active(before, peer)| + if slot.peer == peer then 1 else 0
    ensures forall other | other in after && other != slot :: other in before && after[other] == before[other]
  {
    var rest := after - {slot};
    assert after == rest[slot := after[slot]];
    MadeRoomFacts(before, rest, peer);
    AddedActive(rest, slot, after[slot], peer);
    hide MadeRoom, Active;
    assert forall other | other in after && other != slot :: other in rest && rest[other] == after[other];
  }

  lemma StartedBounded(live: Tables, slot: Slot, now: U64, t': Tables)
    requires Bounded(live) && slot.key.header != 0 && |Active(live.pending, slot.peer)| < MAX_PER_PEER
    requires t'.received == live.received
    requires slot in t'.pending && t'.pending[slot] == Pending(now, 0, false, [])
    requires MadeRoom(live.pending, t'.pending - {slot})
    ensures Bounded(t')
  {
    hide Active, MadeRoom;
    StartedCounts(live.pending, t'.pending, slot, now, 0);
    forall peer
      ensures |Active(t'.pending, peer)| <= MAX_PER_PEER
    {
      StartedCounts(live.pending, t'.pending, slot, now, peer);
    }
  }

  /** Starting transfers keeps every bound. */
  lemma BeginBounded(t: Tables, capable: bool, slot: Slot, now: U64, t': Tables, r: Outcome<Option<Request>>)
    requires Bounded(t) && Begins(t, capable, slot, now, t', r)
    ensures Bounded(t')
    ensures r.Value? && r.value.Some? ==> RequestOk(r.value.value)
  {
    hide Bounded, MadeRoom, NoneFinished, Expired, Active;
    ExpireBounded(t, now);
    if r.Value? && r.value.Some? {
      StartedBounded(Expired(t, now), slot, now, t');
    }
  }

  // ---- Receiving -------------------------------------------------------------------------------

  /** The first key in map order. */
  ghost predicate First(received: map<WorkKey, ByteString>, key: WorkKey) {
    key in received && forall other | other in received && other != key :: KeyLess(key, other)
  }

  /** The cache with one entry evicted if it is full. */
  ghost predicate Trimmed(before: map<WorkKey, ByteString>, after: map<WorkKey, ByteString>) {
    if |before| < MAX_RECEIVED then after == before
    else exists key :: First(before, key) && after == before - {key}
  }

  /** What one response does to its entry, and what is reported; `Some` bytes are a finished transfer. */
  datatype Effect = Effect(entry: Pending, result: Outcome<Received>, completed: Option<ByteString>)

  function Fail(p: Pending, total: nat): Effect {
    Effect(p.(finished := true, total := total, bytes := []), Thrown, None)
  }

  function Accept(d: Decoder, p: Pending, r: Response): Effect {
    if r.request.offset != |p.bytes| then Fail(p, p.total)
    else if r.total == 0 then
      Effect(p.(finished := true, bytes := []), Value(Received(None, None)), None)
    else if p.total != 0 && p.total != r.total then Fail(p, p.total)
    else
      var bytes := p.bytes + r.chunk;
      if |bytes| < r.total then
        var next := Request(r.request.key, |bytes|);
        if RequestOk(next)
        then Effect(p.(total := r.total, bytes := bytes), Value(Received(Some(next), None)), None)
        else Fail(p, r.total)
      else if d.keyOf(bytes) != Some(r.request.key) then Fail(p, r.total)
      else
        Effect(p.(finished := true, total := r.total, bytes := []), Value(Received(None, Some(d.idOf(bytes)))),
               Some(bytes))
  }

  ghost predicate Receives(
    d: Decoder, t: Tables, capable: bool, peer: NodeId, r: Response, now: U64, t': Tables, result: Outcome<Received>)
  {
    var live, slot := Expired(t, now), Slot(peer, r.request.key);
    if !capable || !ResponseOk(r) then t' == t && result.Thrown?
    else if slot !in live.pending || live.pending[slot].finished then t' == live && result.Thrown?
    else
      var effect := Accept(d, live.pending[slot], r);
      && result == effect.result
      && t'.pending == live.pending[slot := effect.entry]
      && match effect.completed
         case None => t'.received == live.received
         case Some(bytes) =>
           && slot.key in t'.received && t'.received[slot.key] == bytes
           && exists trimmed :: Trimmed(live.received, trimmed) && t'.received == trimmed[slot.key := bytes]
  }

  lemma ChunkArithmetic(have: nat, total: nat, chunk: nat)
    requires have % CHUNK == 0 && have < total <= MAX_PAYLOAD && chunk == Min(CHUNK, total - have)
    ensures have + chunk <= total
    ensures have + chunk < total ==> (have + chunk) % CHUNK == 0 && have + chunk < MAX_PAYLOAD
  {
  }

  /** A well-formed response keeps its entry well-formed, every follow-up request is well-formed, and a
      finished transfer has exactly the announced size and belongs to the requested key. */
  lemma AcceptFacts(d: Decoder, p: Pending, r: Response)
    requires PendingOk(p) && !p.finished && ResponseOk(r)
    ensures var e := Accept(d, p, r);
      && PendingOk(e.entry)
      && (e.result.Value? && e.result.value.followup.Some? ==>
            RequestOk(e.result.value.followup.value) && e.result.value.followup.value.offset == |e.entry.bytes|)
      && (e.completed.Some? ==>
            |e.completed.value| == r.total && d.keyOf(e.completed.value) == Some(r.request.key)
            && e.result == Value(Received(None, Some(d.idOf(e.completed.value)))))
      && (e.result.Value? && e.result.value.id.Some? ==> e.completed.Some?)
  {
    if r.request.offset == |p.bytes| && r.total != 0 {
      ChunkArithmetic(|p.bytes|, r.total, |r.chunk|);
    }
  }

  lemma TrimmedSize(before: map<WorkKey, ByteString>, after: map<WorkKey, ByteString>, key: WorkKey, bytes: ByteString)
    requires Trimmed(before, after) && |before| <= MAX_RECEIVED
    ensures |after[key := bytes]| <= MAX_RECEIVED
  {
    if |before| >= MAX_RECEIVED {
      var first :| First(before, first) && after == before - {first};
      assert after.Keys == before.Keys - {first};
    }
    assert after[key := bytes].Keys == after.Keys + {key};
  }

  lemma EntryBounded(live: Tables, slot: Slot, entry: Pending, received: map<WorkKey, ByteString>)
    requires Bounded(live) && slot in live.pending && !live.pending[slot].finished && PendingOk(entry)
    requires |received| <= MAX_RECEIVED
    ensures Bounded(Tables(live.pending[slot := entry], received))
  {
    var pending := live.pending[slot := entry];
    assert pending.Keys == live.pending.Keys;
    forall peer
      ensures |Active(pending, peer)| <= MAX_PER_PEER
    {
      assert Active(pending, peer) <= Active(live.pending, peer);
      SubSet(Active(pending, peer), Active(live.pending, peer));
    }
  }

  /** Whatever a peer sends, the bounds hold. */
  lemma ReceiveBounded(
    d: Decoder, t: Tables, capable: bool, peer: NodeId, r: Response, now: U64, t': Tables, result: Outcome<Received>)
    requires Bounded(t) && Receives(d, t, capable, peer, r, now, t', result)
    ensures Bounded(t')
    ensures result.Value? && result.value.followup.Some? ==> RequestOk(result.value.followup.value)
  {
    hide Accept, ResponseOk, Expired, Trimmed;
    var live, slot := Expired(t, now), Slot(peer, r.request.key);
    ExpireBounded(t, now);
    if capable && ResponseOk(r) && slot in live.pending && !live.pending[slot].finished {
      var e := Accept(d, live.pending[slot], r);
      AcceptFacts(d, live.pending[slot], r);
      if e.completed.Some? {
        var trimmed :| Trimmed(live.received, trimmed) && t'.received == trimmed[slot.key := e.completed.value];
        TrimmedSize(live.received, trimmed, slot.key, e.completed.value);
      }
      hide PendingOk;
      EntryBounded(live, slot, e.entry, t'.received);
    }
  }

  /** A stored payload has exactly the size its sender announced. */
  lemma StoredIsComplete(
    d: Decoder, t: Tables, capable: bool, peer: NodeId, r: Response, now: U64, t': Tables, result: Outcome<Received>)
    requires Bounded(t) && Receives(d, t, capable, peer, r, now, t', result)
    requires result.Value? && result.value.id.Some?
    ensures r.request.key in t'.received
    ensures var bytes := t'.received[r.request.key];
      |bytes| == r.total && d.keyOf(bytes) == Some(r.request.key) && d.idOf(bytes) == result.value.id.value
  {
    hide Expired, Trimmed, ResponseOk;
    ExpireBounded(t, now);
    AcceptFacts(d, Expired(t, now).pending[Slot(peer, r.request.key)], r);
  }

  // ---- Honest peers ----------------------------------------------------------------------------

  /** The serving side: find the record, cut the chunk, refuse what does not fit the protocol. */
  function Answer(archived: Option<ByteString>, request: Request): Outcome<Response> {
    if !RequestOk(request) then Thrown
    else if archived.None? then Value(Response(request, 0, []))
    else
      var payload := archived.value;
      if request.offset >= |payload| then Thrown
      else
        var response := Response(request, |payload|,
          payload[request.offset..request.offset + Min(CHUNK, |payload| - request.offset)]);
        if ResponseOk(response) then Value(response) else Thrown
  }

  /** A record the archive can hold. */
  ghost predicate Archivable(d: Decoder, payload: ByteString, key: WorkKey) {
    FIXED_PAYLOAD <= |payload| <= MAX_PAYLOAD && d.keyOf(payload) == Some(key) && key.header != 0
  }

  function Chunks(size: nat): nat { (size + CHUNK - 1) / CHUNK }

  /** The transfer has received exactly the first `n` chunks. */
  ghost predicate Progress(t: Tables, slot: Slot, payload: ByteString, n: nat) {
    && n * CHUNK < |payload|
    && slot in t.pending && !t.pending[slot].finished
    && t.pending[slot].bytes == payload[..n * CHUNK]
    && t.pending[slot].total == if n == 0 then 0 else |payload|
  }

  /** The next honest answer adds one chunk and asks for the one after, or completes the transfer with
      exactly the archived bytes.  Nothing is assumed of the other entries. */
  lemma HonestStep(
    d: Decoder, t: Tables, slot: Slot, payload: ByteString, n: nat, now: U64, t': Tables, result: Outcome<Received>)
    requires Archivable(d, payload, slot.key) && Progress(t, slot, payload, n) && Live(t.pending[slot], now)
    requires Answer(Some(payload), Request(slot.key, n * CHUNK)).Value?
    requires Receives(d, t, true, slot.peer, Answer(Some(payload), Request(slot.key, n * CHUNK)).value, now, t', result)
    ensures (n + 1) * CHUNK < |payload| ==>
      Progress(t', slot, payload, n + 1) && result == Value(Received(Some(Request(slot.key, (n + 1) * CHUNK)), None))
    ensures (n + 1) * CHUNK >= |payload| ==>
      && slot.key in t'.received && t'.received[slot.key] == payload
      && result == Value(Received(None, Some(d.idOf(payload))))
  {
    var offset := n * CHUNK;
    var response := Answer(Some(payload), Request(slot.key, offset)).value;
    var live := Expired(t, now);
    assert live.pending[slot] == t.pending[slot];
    var bytes := payload[..offset] + response.chunk;
    assert bytes == payload[..offset + |response.chunk|];
    assert offset + |response.chunk| == Min((n + 1) * CHUNK, |payload|);
    if (n + 1) * CHUNK >= |payload| {
      assert bytes == payload;
    }
    hide Trimmed, Expired;
  }

  /** An honest peer always has an answer to the next request. */
  lemma HonestAnswer(d: Decoder, payload: ByteString, key: WorkKey, n: nat)
    requires Archivable(d, payload, key) && n * CHUNK < |payload|
    ensures Answer(Some(payload), Request(key, n * CHUNK)).Value?
  {
    assert (n * CHUNK) % CHUNK == 0;
  }

  /** At most four answers complete any transfer. */
  lemma FourChunks(size: nat)
    requires size <= MAX_PAYLOAD
    ensures Chunks(size) <= 4
    ensures forall n: nat :: n < Chunks(size) <==> n * CHUNK < size
  {
  }

  // ---- Whole runs ------------------------------------------------------------------------------

  datatype Op =
    | BeginOp(capable: bool, slot: Slot, now: U64)
    | ReceiveOp(capable: bool, peer: NodeId, response: Response, now: U64)
    | TakeOp(key: WorkKey)

  ghost predicate Taken(t: Tables, key: WorkKey, t': Tables) {
    t' == t.(received := t.received - {key})
  }

  ghost predicate Steps(d: Decoder, t: Tables, op: Op, t': Tables) {
    match op
    case BeginOp(capable, slot, now) => exists r :: Begins(t, capable, slot, now, t', r)
    case ReceiveOp(capable, peer, response, now) =>
      exists r :: Receives(d, t, capable, peer, response, now, t', r)
    case TakeOp(key) => Taken(t, key, t')
  }

  ghost predicate IsRun(d: Decoder, states: seq<Tables>, ops: seq<Op>) {
    && |states| == |ops| + 1
    && forall i | 0 <= i < |ops| :: Steps(d, states[i], ops[i], states[i + 1])
  }

  const EMPTY_TABLES := Tables(map[], map[])

  lemma EmptyBounded()
    ensures Bounded(EMPTY_TABLES)
  {
    forall peer
      ensures |Active(EMPTY_TABLES.pending, peer)| == 0
    {
      assert Active(EMPTY_TABLES.pending, peer) == {};
    }
  }

  lemma StepBounded(d: Decoder, t: Tables, op: Op, t': Tables)
    requires Bounded(t) && Steps(d, t, op, t')
    ensures Bounded(t')
  {
    hide Bounded, Begins, Receives;
    match op
    case BeginOp(capable, slot, now) =>
      var r :| Begins(t, capable, slot, now, t', r);
      BeginBounded(t, capable, slot, now, t', r);
    case ReceiveOp(capable, peer, response, now) =>
      var r :| Receives(d, t, capable, peer, response, now, t', r);
      ReceiveBounded(d, t, capable, peer, response, now, t', r);
    case TakeOp(key) =>
      TakeBounded(t, key, t');
  }

  lemma TakeBounded(t: Tables, key: WorkKey, t': Tables)
    requires Bounded(t) && Taken(t, key, t')
    ensures Bounded(t')
  {
    assert t'.received.Keys == t.received.Keys - {key};
    SubSet(t'.received.Keys, t.received.Keys);
  }

  /** Whatever peers send, in whatever order: at most 16 entries, at most two active transfers per peer,
      at most 8 payloads waiting to be taken. */
  lemma {:induction false} RunBounded(d: Decoder, states: seq<Tables>, ops: seq<Op>, i: nat)
    requires IsRun(d, states, ops) && states[0] == EMPTY_TABLES && i <= |ops|
    ensures Bounded(states[i])
  {
    hide Bounded, Steps;
    if i == 0 {
      EmptyBounded();
    } else {
      RunBounded(d, states, ops, i - 1);
      StepBounded(d, states[i - 1], ops[i - 1], states[i]);
    }
  }

  ghost predicate Concerns(op: Op, slot: Slot) {
    op.ReceiveOp? && op.peer == slot.peer && op.response.request.key == slot.key
  }

  /** The operation happens while the entry is alive. */
  ghost predicate InTime(op: Op, p: Pending) { op.TakeOp? || Live(p, op.now) }

  lemma OthersKeepProgress(
    d: Decoder, t: Tables, op: Op, t': Tables, slot: Slot, payload: ByteString, n: nat)
    requires Progress(t, slot, payload, n) && InTime(op, t.pending[slot]) && !Concerns(op, slot)
    requires Steps(d, t, op, t') && |t.pending| <= MAX_PENDING
    ensures Progress(t', slot, payload, n) && t'.pending[slot].started == t.pending[slot].started
  {
    match op
    case BeginOp(capable, other, now) =>
      var r :| Begins(t, capable, other, now, t', r);
      var live := Expired(t, now);
      SubMap(live.pending, t.pending, 0);
      if r.Value? && r.value.Some? {
        MadeRoomFacts(live.pending, t'.pending - {other}, 0);
      }
    case ReceiveOp(capable, peer, response, now) =>
      var r :| Receives(d, t, capable, peer, response, now, t', r);
    case TakeOp(key) =>
  }

  /** The answers among the first `i` operations that belong to this transfer. */
  ghost function Answers(ops: seq<Op>, slot: Slot, i: nat): nat
    requires i <= |ops|
  {
    if i == 0 then 0 else Answers(ops, slot, i - 1) + if Concerns(ops[i - 1], slot) then 1 else 0
  }

  /** Everything this peer sends for this key is the honest answer to the next request, in time. */
  ghost predicate Honest(ops: seq<Op>, slot: Slot, payload: ByteString, started: U64, i: nat)
    requires i <= |ops|
  {
    forall j | 0 <= j < i ::
      && InTime(ops[j], Pending(started, 0, false, []))
      && (Concerns(ops[j], slot) ==>
            ops[j].capable &&
            Answer(Some(payload), Request(slot.key, Answers(ops, slot, j) * CHUNK)) == Value(ops[j].response))
  }

  /** An honest transfer makes progress through any interleaving with other transfers. */
  lemma {:induction false} HonestProgress(
    d: Decoder, states: seq<Tables>, ops: seq<Op>, slot: Slot, payload: ByteString, started: U64, i: nat)
    requires IsRun(d, states, ops) && i <= |ops| && Archivable(d, payload, slot.key)
    requires Bounded(states[0]) && Progress(states[0], slot, payload, 0) && states[0].pending[slot].started == started
    requires Honest(ops, slot, payload, started, i) && Answers(ops, slot, i) * CHUNK < |payload|
    ensures Bounded(states[i])
    ensures Progress(states[i], slot, payload, Answers(ops, slot, i)) && states[i].pending[slot].started == started
  {
    hide Steps, Progress;
    if i > 0 {
      HonestProgress(d, states, ops, slot, payload, started, i - 1);
      StepBounded(d, states[i - 1], ops[i - 1], states[i]);
      HonestProgressStep(d, states[i - 1], ops[i - 1], states[i], slot, payload, started,
                         Answers(ops, slot, i - 1), Answers(ops, slot, i));
    }
  }

  lemma HonestProgressStep(
    d: Decoder, t: Tables, op: Op, t': Tables, slot: Slot, payload: ByteString, started: U64, n: nat, n': nat)
    requires Steps(d, t, op, t') && Bounded(t) && Archivable(d, payload, slot.key)
    requires Progress(t, slot, payload, n) && t.pending[slot].started == started
    requires InTime(op, Pending(started, 0, false, []))
    requires n' == (n + if Concerns(op, slot) then 1 else 0) && n' * CHUNK < |payload|
    requires Concerns(op, slot) ==>
      op.capable && Answer(Some(payload), Request(slot.key, n * CHUNK)) == Value(op.response)
    ensures Progress(t', slot, payload, n') && t'.pending[slot].started == started
  {
    if Concerns(op, slot) {
      var r :| Receives(d, t, true, op.peer, op.response, op.now, t', r);
      hide Progress;
      HonestStep(d, t, slot, payload, n, op.now, t', r);
      StartedKept(d, t, slot, op.response, op.now, t', r);
    } else {
      OthersKeepProgress(d, t, op, t', slot, payload, n);
    }
  }

  lemma StartedKept(
    d: Decoder, t: Tables, slot: Slot, response: Response, now: U64, t': Tables, r: Outcome<Received>)
    requires Receives(d, t, true, slot.peer, response, now, t', r) && response.request.key == slot.key
    requires slot in t.pending && slot in t'.pending
    ensures t'.pending[slot].started == t.pending[slot].started
  {
  }

  /** The honest answer number `Chunks` completes the transfer with exactly the archived bytes, and that
      is at most the fourth. */
  lemma HonestTransfer(
    d: Decoder, states: seq<Tables>, ops: seq<Op>, slot: Slot, payload: ByteString, started: U64, i: nat)
    requires IsRun(d, states, ops) && i < |ops| && Archivable(d, payload, slot.key)
    requires Bounded(states[0]) && Progress(states[0], slot, payload, 0) && states[0].pending[slot].started == started
    requires Honest(ops, slot, payload, started, i + 1) && Concerns(ops[i], slot)
    requires Answers(ops, slot, i + 1) == Chunks(|payload|)
    ensures slot.key in states[i + 1].received && states[i + 1].received[slot.key] == payload
    ensures Chunks(|payload|) <= 4
  {
    FourChunks(|payload|);
    var n := Answers(ops, slot, i);
    HonestProgress(d, states, ops, slot, payload, started, i);
    hide Progress;
    var op := ops[i];
    var r :| Receives(d, states[i], true, op.peer, op.response, op.now, states[i + 1], r);
    ProgressLive(states[i], slot, payload, n, started, op);
    HonestStep(d, states[i], slot, payload, n, op.now, states[i + 1], r);
  }

  lemma ProgressLive(t: Tables, slot: Slot, payload: ByteString, n: nat, started: U64, op: Op)
    requires Progress(t, slot, payload, n) && t.pending[slot].started == started
    requires op.ReceiveOp? && InTime(op, Pending(started, 0, false, []))
    ensures slot in t.pending && Live(t.pending[slot], op.now)
  {
  }

  // ---- The class -------------------------------------------------------------------------------

  /** The oldest finished entry among some of the slots. */
  ghost predicate OldestAmong(pending: map<Slot, Pending>, seen: set<Slot>, slot: Slot) {
    && slot in pending && slot in seen && pending[slot].finished
    && forall other | other in pending && other in seen && pending[other].finished && other != slot ::
         || pending[slot].started < pending[other].started
         || (pending[slot].started == pending[other].started && SlotLess(slot, other))
  }

  predicate OlderThan(pending: map<Slot, Pending>, a: Slot, b: Slot)
    requires a in pending && b in pending
  {
    pending[a].started < pending[b].started || (pending[a].started == pending[b].started && SlotLess(a, b))
  }

  /** Scan the table for the finished entry to recycle. */
  method FindReusable(pending: map<Slot, Pending>) returns (reusable: Option<Slot>)
    ensures reusable.None? ==> NoneFinished(pending)
    ensures reusable.Some? ==> Oldest(pending, reusable.value) && !NoneFinished(pending)
  {
    reusable := None;
    var todo := pending.Keys;
    while todo != {}
      invariant todo <= pending.Keys
      invariant reusable.None? ==> forall slot | slot in pending && slot !in todo :: !pending[slot].finished
      invariant reusable.Some? ==> OldestAmong(pending, pending.Keys - todo, reusable.value)
      decreases |todo|
    {
      var slot :| slot in todo;
      todo := todo - {slot};
      if pending[slot].finished && (reusable.None? || OlderThan(pending, slot, reusable.value)) {
        reusable := Some(slot);
      }
    }
  }

  method FindFirst(received: map<WorkKey, ByteString>) returns (first: WorkKey)
    requires received != map[]
    ensures First(received, first)
  {
    var todo := received.Keys;
    first :| first in todo;
    todo := todo - {first};
    while todo != {}
      invariant todo <= received.Keys && first in received && first !in todo
      invariant forall other | other in received && other !in todo && other != first :: KeyLess(first, other)
      decreases |todo|
    {
      var key :| key in todo;
      todo := todo - {key};
      if KeyLess(key, first) {
        first := key;
      }
    }
  }

  class P2pWorkRetrieval {
    const decoder: Decoder
    var pending: map<Slot, Pending>
    var received: map<WorkKey, ByteString>

    ghost function Model(): Tables
      reads this
    {
      Tables(pending, received)
    }

    ghost predicate Valid()
      reads this
    {
      Bounded(Model())
    }

    constructor (decoder: Decoder)
      ensures Valid() && Model() == EMPTY_TABLES && this.decoder == decoder
    {
      this.decoder := decoder;
      pending, received := map[], map[];
      new;
      EmptyBounded();
    }

    method Expire(now: U64)
      requires Valid()
      modifies `pending
      ensures Valid() && Model() == Expired(old(Model()), now)
    {
      ExpireBounded(Model(), now);
      pending := map slot | slot in pending && Live(pending[slot], now) :: pending[slot];
    }

    /** Recycle the oldest finished entry of a full table. */
    method MakeRoom() returns (ok: bool)
      modifies `pending
      ensures ok <==> |old(pending)| < MAX_PENDING || !NoneFinished(old(pending))
      ensures if ok then MadeRoom(old(pending), pending) else pending == old(pending)
      ensures forall slot | slot in pending :: slot in old(pending)
    {
      if |pending| >= MAX_PENDING {
        var reusable := FindReusable(pending);
        if reusable.None? {
          return false;
        }
        pending := pending - {reusable.value};
      }
      return true;
    }

    method Begin(capable: bool, slot: Slot, now: U64) returns (r: Outcome<Option<Request>>)
      requires Valid()
      modifies this
      ensures Valid() && Begins(old(Model()), capable, slot, now, Model(), r)
    {
      hide Bounded, Active, NoneFinished, MadeRoom, Expired, RequestOk;
      ghost var before := Model();
      if !capable {
        return Value(None);
      }
      if !RequestOk(Request(slot.key, 0)) {
        return Thrown;
      }
      Expire(now);
      if slot.key in received || slot in pending {
        return Value(None);
      }
      var active := set s | s in pending && s.peer == slot.peer && !pending[s].finished;
      ActiveIs(pending, slot.peer, active);
      if |active| >= MAX_PER_PEER {
        return Value(None);
      }
      var ok := MakeRoom();
      if !ok {
        return Value(None);
      }
      AddedApart(pending, slot, Pending(now, 0, false, []));
      pending := pending[slot := Pending(now, 0, false, [])];
      r := Value(Some(Request(slot.key, 0)));
      BeginBounded(before, capable, slot, now, Model(), r);
    }

    /** Store a finished payload, evicting the first one when the cache is full. */
    method Store(key: WorkKey, bytes: ByteString)
      modifies `received
      ensures key in received && received[key] == bytes
      ensures exists trimmed :: Trimmed(old(received), trimmed) && received == trimmed[key := bytes]
    {
      if |received| >= MAX_RECEIVED {
        var first := FindFirst(received);
        received := received - {first};
      }
      ghost var trimmed := received;
      assert Trimmed(old(received), trimmed);
      received := received[key := bytes];
    }

    method Receive(capable: bool, peer: NodeId, response: Response, now: U64) returns (r: Outcome<Received>)
      requires Valid()
      modifies this
      ensures Valid() && Receives(decoder, old(Model()), capable, peer, response, now, Model(), r)
    {
      if !capable || !ResponseOk(response) {
        return Thrown;
      }
      ghost var before := Model();
      hide Bounded, ResponseOk, Trimmed, Accept, Expired;
      Expire(now);
      var slot := Slot(peer, response.request.key);
      if slot !in pending || pending[slot].finished {
        return Thrown;
      }
      var effect := Accept(decoder, pending[slot], response);
      pending := pending[slot := effect.entry];
      if effect.completed.Some? {
        Store(slot.key, effect.completed.value);
      }
      r := effect.result;
      ReceiveBounded(decoder, before, capable, peer, response, now, Model(), r);
    }

    method TakeUntrusted(key: WorkKey) returns (bytes: Option<ByteString>)
      requires Valid()
      modifies `received
      ensures Valid() && Taken(old(Model()), key, Model())
      ensures bytes == if key in old(received) then Some(old(received)[key]) else None
    {
      ghost var before := Model();
      bytes := if key in received then Some(received[key]) else None;
      received := received - {key};
      TakeBounded(before, key, Model());
    }
  }

  lemma AddedApart(pending: map<Slot, Pending>, slot: Slot, p: Pending)
    requires slot !in pending
    ensures pending[slot := p] - {slot} == pending
  {
  }

  lemma ActiveIs(pending: map<Slot, Pending>, peer: NodeId, active: set<Slot>)
    requires active == set s | s in pending && s.peer == peer && !pending[s].finished
    ensures active == Active(pending, peer)
  {
  }
}
