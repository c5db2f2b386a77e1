/** Chunked work retrieval in numbers: which messages are well formed, which transfers start, what makes room,
    and what each response does. */
module RetrievalLaws {
  import opened Basics
  import opened Bytes
  import opened WorkRetrieval

  lemma MessagesInNumbers(request: Request, response: Response)
    ensures RequestOk(request) <==>
      && request.key.header != 0
      && (request.offset == 0 || request.offset == 16384 || request.offset == 32768 || request.offset == 49152)
    ensures ResponseOk(response) && response.total > 0 ==>
      && 121 <= response.total <= 65536 && 0 < |response.chunk| <= 16384
      && response.request.offset + |response.chunk| <= response.total
      && (|response.chunk| < 16384 ==> response.request.offset + |response.chunk| == response.total)
    ensures ResponseOk(response) && response.total == 0 ==> response.chunk == []
  {
  }

  /** The entry was started at most a minute ago. */
  ghost predicate Young(p: Pending, now: U64) { p.started <= now < p.started + 60 }

  /** Expiry keeps exactly the young entries, and every received payload. */
  lemma ExpiryKeepsYoung(t: Tables, now: U64)
    ensures var t' := Expired(t, now);
      && (forall slot :: slot in t'.pending <==> slot in t.pending && Young(t.pending[slot], now))
      && (forall slot | slot in t'.pending :: t'.pending[slot] == t.pending[slot])
      && t'.received == t.received
  {
  }

  ghost function YoungSlots(t: Tables, now: U64): set<Slot> {
    set slot | slot in t.pending && Young(t.pending[slot], now)
  }

  ghost function ActiveOf(t: Tables, now: U64, peer: NodeId): set<Slot> {
    set slot | slot in t.pending && Young(t.pending[slot], now) && slot.peer == peer && !t.pending[slot].finished
  }

  /** A transfer may start: the work is not here and not on its way from this peer, the peer has fewer than two
      active transfers, and there is room or a finished entry to drop. */
  ghost predicate MayStart(t: Tables, slot: Slot, now: U64) {
    && slot.key !in t.received && slot !in YoungSlots(t, now)
    && |ActiveOf(t, now, slot.peer)| < 2
    && (|YoungSlots(t, now)| < 16 || exists other :: other in YoungSlots(t, now) && t.pending[other].finished)
  }

  lemma YoungIsLive(t: Tables, now: U64, peer: NodeId)
    ensures Expired(t, now).pending.Keys == YoungSlots(t, now)
    ensures |Expired(t, now).pending| == |YoungSlots(t, now)|
    ensures Active(Expired(t, now).pending, peer) == ActiveOf(t, now, peer)
  {
    assert Expired(t, now).pending.Keys == YoungSlots(t, now);
    assert |Expired(t, now).pending| == |Expired(t, now).pending.Keys|;
  }

  /** When a transfer starts, and with which first request. */
  lemma BeginTable(t: Tables, capable: bool, slot: Slot, now: U64, t': Tables, r: Outcome<Option<Request>>)
    requires Begins(t, capable, slot, now, t', r)
    ensures r.Thrown? <==> capable && slot.key.header == 0
    ensures r.Value? && r.value.Some? <==> capable && slot.key.header != 0 && MayStart(t, slot, now)
    ensures r.Value? && r.value.Some? ==>
      r.value.value == Request(slot.key, 0) && slot in t'.pending && t'.pending[slot] == Pending(now, 0, false, [])
    ensures t'.received == t.received
  {
    YoungIsLive(t, now, slot.peer);
    ExpiryKeepsYoung(t, now);
    hide Expired, Young, Active, ActiveOf, MadeRoom;
  }

  /** A transfer that starts drops nothing while fewer than 16 entries are young; otherwise exactly one entry, a
      finished one that none of the finished ones is older than, and of the equally old ones the first. */
  lemma MakingRoom(t: Tables, capable: bool, slot: Slot, now: U64, t': Tables, r: Outcome<Option<Request>>)
    requires Begins(t, capable, slot, now, t', r) && r.Value? && r.value.Some?
    ensures |YoungSlots(t, now)| < 16 ==> t'.pending.Keys == YoungSlots(t, now) + {slot}
    ensures |YoungSlots(t, now)| >= 16 ==>
      exists gone :: gone in YoungSlots(t, now) && t.pending[gone].finished
        && t'.pending.Keys == YoungSlots(t, now) - {gone} + {slot} && DroppedFirst(t, now, gone)
  {
    hide YoungSlots, DroppedFirst, MadeRoom, Begins;
    StartedWithRoom(t, capable, slot, now, t', r);
    RoomInNumbers(t, now, Expired(t, now).pending, t'.pending - {slot});
    assert t'.pending.Keys == (t'.pending - {slot}).Keys + {slot};
  }

  lemma StartedWithRoom(t: Tables, capable: bool, slot: Slot, now: U64, t': Tables, r: Outcome<Option<Request>>)
    requires Begins(t, capable, slot, now, t', r) && r.Value? && r.value.Some?
    ensures var live := Expired(t, now).pending;
      && slot in t'.pending && MadeRoom(live, t'.pending - {slot})
      && live.Keys == YoungSlots(t, now) && forall other | other in live :: live[other] == t.pending[other]
  {
    YoungIsLive(t, now, slot.peer);
    ExpiryKeepsYoung(t, now);
    hide Expired, Young, Active, MadeRoom;
  }

  lemma RoomInNumbers(t: Tables, now: U64, live: map<Slot, Pending>, after: map<Slot, Pending>)
    requires live.Keys == YoungSlots(t, now) && forall slot | slot in live :: live[slot] == t.pending[slot]
    requires MadeRoom(live, after)
    ensures |YoungSlots(t, now)| < 16 ==> after.Keys == YoungSlots(t, now)
    ensures |YoungSlots(t, now)| >= 16 ==>
      exists gone :: gone in YoungSlots(t, now) && t.pending[gone].finished
        && after.Keys == YoungSlots(t, now) - {gone} && DroppedFirst(t, now, gone)
  {
    hide Oldest, DroppedFirst, Young;
    assert |live| == |live.Keys|;
    if |live| >= 16 {
      var gone :| Oldest(live, gone) && after == live - {gone};
      OldestIsFirst(t, now, live, gone);
    }
  }

  lemma OldestIsFirst(t: Tables, now: U64, live: map<Slot, Pending>, gone: Slot)
    requires live.Keys == YoungSlots(t, now) && forall slot | slot in live :: live[slot] == t.pending[slot]
    requires Oldest(live, gone)
    ensures gone in YoungSlots(t, now) && t.pending[gone].finished && DroppedFirst(t, now, gone)
  {
    hide Young;
    forall other | other in YoungSlots(t, now) && t.pending[other].finished && other != gone
      ensures Precedes(t, gone, other)
    {
      assert other in live && live[other] == t.pending[other];
    }
  }

  ghost predicate DroppedFirst(t: Tables, now: U64, gone: Slot)
    requires gone in t.pending
  {
    forall other | other in YoungSlots(t, now) && t.pending[other].finished && other != gone :: Precedes(t, gone, other)
  }

  /** Started earlier; of two started together, the smaller peer, then the smaller height, then header. */
  ghost predicate Precedes(t: Tables, a: Slot, b: Slot)
    requires a in t.pending && b in t.pending
  {
    var x, y := t.pending[a].started, t.pending[b].started;
    || x < y
    || (x == y && (|| a.peer < b.peer
                   || (a.peer == b.peer && (|| a.key.height < b.key.height
                                            || (a.key.height == b.key.height && a.key.header < b.key.header)))))
  }

  /** What a response does to its entry: anything but the next chunk of a payload of the announced size ends the
      transfer, and so does the answer that there is none; the last chunk completes it if the bytes decode to
      the requested work. */
  lemma ResponseTable(d: Decoder, p: Pending, r: Response)
    requires PendingOk(p) && !p.finished && ResponseOk(r)
    ensures var e, bytes := Accept(d, p, r), p.bytes + r.chunk;
      if r.request.offset != |p.bytes| then e.result.Thrown? && Ended(e.entry, p)
      else if r.total == 0 then e.result == Value(Received(None, None)) && Ended(e.entry, p) && e.completed.None?
      else if p.total != 0 && p.total != r.total then e.result.Thrown? && Ended(e.entry, p) && e.completed.None?
      else if |bytes| < r.total then
        && e.result == Value(Received(Some(Request(r.request.key, |bytes|)), None)) && e.completed.None?
        && e.entry == Pending(p.started, r.total, false, bytes)
      else if d.keyOf(bytes) != Some(r.request.key) then
        e.result.Thrown? && Ended(e.entry, p) && e.completed.None?
      else
        && e.result == Value(Received(None, Some(d.idOf(bytes)))) && Ended(e.entry, p)
        && e.completed == Some(bytes) && |bytes| == r.total
  {
    if r.request.offset == |p.bytes| && r.total != 0 {
      ChunkArithmetic(|p.bytes|, r.total, |r.chunk|);
    }
  }

  ghost predicate Ended(entry: Pending, p: Pending) {
    entry.finished && entry.bytes == [] && entry.started == p.started
  }

  ghost predicate SmallestKey(received: map<WorkKey, ByteString>, first: WorkKey) {
    && first in received
    && (forall other | other in received && other != first ::
          first.height < other.height || (first.height == other.height && first.header < other.header))
  }

  /** Only a completed transfer changes the received payloads: it adds its own, and drops the smallest key if
      eight were waiting. */
  lemma ReceivedPayloads(
    d: Decoder, t: Tables, capable: bool, peer: NodeId, r: Response, now: U64, t': Tables, result: Outcome<Received>)
    requires Receives(d, t, capable, peer, r, now, t', result)
    ensures !(result.Value? && result.value.id.Some?) ==> t'.received == t.received
    ensures result.Value? && result.value.id.Some? ==>
      && r.request.key in t'.received
      && (|t.received| < 8 ==> t'.received == t.received[r.request.key := t'.received[r.request.key]])
      && (|t.received| >= 8 ==>
            exists first :: SmallestKey(t.received, first)
              && t'.received == (t.received - {first})[r.request.key := t'.received[r.request.key]])
  {
    var live, slot := Expired(t, now), Slot(peer, r.request.key);
    if result.Value? {
      var effect := Accept(d, live.pending[slot], r);
      if effect.completed.Some? {
        hide Accept;
        var trimmed :| Trimmed(live.received, trimmed) && t'.received == trimmed[slot.key := effect.completed.value];
        if |t.received| >= 8 {
          var first :| First(live.received, first) && trimmed == live.received - {first};
        }
      }
    }
  }
}
