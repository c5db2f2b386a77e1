/** The block-submit queue in fields: when a candidate is queued, what is submitted, and in which order over
    every run. */
module SubmitterLaws {
  import opened Basics
  import opened Bytes
  import opened BlockSubmitter

  /** When a candidate is queued and why not; a queued one carries the template of its own header. */
  lemma EnqueueTable(l: Limits, s: State, c: Candidate)
    requires l.maxTemplates > 0
    ensures var r, s' := EnqueueResult(l, s, c), Next(l, s, Enqueue(c));
      if !s.running || s.stopRequested then r == Stopped && s' == s
      else if c.header !in s.templates then r == StaleTemplate && s' == s
      else if |s.queue| >= l.maxQueue then r == QueueFull && s' == s
      else r == WasQueued && s' == s.(queue := s.queue + [Queued(c, s.templates[c.header])])
  {
  }

  /** What is handed to the daemon: bytes 1 to 8 of the template become the nonce, least significant first. */
  lemma NonceBytes(blob: ByteString, nonce: U64)
    ensures WithNonce(blob, nonce).Value? <==> |blob| >= 9
    ensures |blob| >= 9 ==>
      var patched := WithNonce(blob, nonce).value;
      && |patched| == |blob| && patched[0] == blob[0] && patched[9..] == blob[9..]
      && patched[1] == nonce % 256 && patched[2] == nonce / 256 % 256
      && nonce == patched[1] + 256 * FromLittleEndian(patched[2..9])
  {
    if |blob| >= 9 {
      NonceIsPatched(blob, nonce);
      var patched := WithNonce(blob, nonce).value;
      assert patched[1..9][1..] == patched[2..9];
    }
  }

  /** A solved header leaves nothing behind: no template, no queued candidate; all others stay, in order. */
  lemma RetireClears(l: Limits, s: State)
    requires l.maxTemplates > 0 && s.worker.Retiring?
    ensures var s', h := Next(l, s, Retire), s.worker.job.candidate.header;
      && s'.worker == Waiting && s'.running == s.running && s'.stopRequested == s.stopRequested
      && s'.templates == (map k | k in s.templates && k != h :: s.templates[k])
      && (forall x :: x in s'.order <==> x in s.order && x != h)
      && (forall q :: q in s'.queue <==> q in s.queue && q.candidate.header != h)
      && Within(s'.queue, s.queue)
  {
    var h := s.worker.job.candidate.header;
    WithoutFacts(s.order, h);
    WithoutSiblingsFacts(s.queue, h);
    SiblingsWithin(s.queue, h);
  }

  // ---- First in, first out ---------------------------------------------------------------------

  /** `a` is `b` with some elements left out. */
  ghost predicate Within<T>(a: seq<T>, b: seq<T>)
    decreases |b|
  {
    if a == [] then true
    else if b == [] then false
    else if a[0] == b[0] && Within(a[1..], b[1..]) then true
    else Within(a, b[1..])
  }

  lemma {:induction false} WithinAppend<T>(a: seq<T>, b: seq<T>, x: T)
    requires Within(a, b)
    ensures Within(a + [x], b + [x]) && Within(a, b + [x])
    decreases |b|
  {
    if b == [] {
      assert a == [];
      assert [x] == [] + [x];
    } else {
      assert (b + [x])[1..] == b[1..] + [x];
      if a == [] {
        WithinAppend(a, b[1..], x);
      } else if a[0] == b[0] && Within(a[1..], b[1..]) {
        WithinAppend(a[1..], b[1..], x);
        assert (a + [x])[1..] == a[1..] + [x];
      } else {
        WithinAppend(a, b[1..], x);
      }
    }
  }

  lemma WithinLonger<T>(a: seq<T>, b: seq<T>)
    requires b != [] && Within(a, b[1..])
    ensures Within(a, b)
  {
  }

  lemma {:induction false} WithinThrough<T>(a: seq<T>, b: seq<T>, c: seq<T>)
    requires Within(a, b) && Within(b, c)
    ensures Within(a, c)
    decreases |c|
  {
    if a != [] {
      if b[0] == c[0] && Within(b[1..], c[1..]) {
        if a[0] == b[0] && Within(a[1..], b[1..]) {
          WithinThrough(a[1..], b[1..], c[1..]);
        } else {
          WithinThrough(a, b[1..], c[1..]);
        }
      } else {
        WithinThrough(a, b, c[1..]);
      }
    }
  }

  lemma {:induction false} WithinBehind<T>(front: seq<T>, a: seq<T>, b: seq<T>)
    requires Within(a, b)
    ensures Within(front + a, front + b)
  {
    if front == [] {
      assert front + a == a && front + b == b;
    } else {
      WithinBehind(front[1..], a, b);
      assert (front + a)[1..] == front[1..] + a && (front + b)[1..] == front[1..] + b;
    }
  }

  lemma {:induction false} SiblingsWithin(queue: seq<Queued>, h: Header)
    ensures Within(WithoutSiblings(queue, h), queue)
  {
    if queue != [] {
      SiblingsWithin(queue[1..], h);
      var rest := WithoutSiblings(queue[1..], h);
      if queue[0].candidate.header != h {
        assert WithoutSiblings(queue, h) == [queue[0]] + rest;
        assert ([queue[0]] + rest)[1..] == rest;
      } else {
        assert WithoutSiblings(queue, h) == rest;
        WithinLonger(rest, queue);
      }
    }
  }

  /** The candidates queued so far, in order, with the template each was queued with. */
  ghost function Accepted(l: Limits, states: seq<State>, actions: seq<Action>, n: nat): seq<Queued>
    requires n <= |actions| && |states| == |actions| + 1
  {
    if n == 0 then []
    else
      var s, a := states[n - 1], actions[n - 1];
      Accepted(l, states, actions, n - 1) +
      if a.Enqueue? && s.running && !s.stopRequested && a.candidate.header in s.templates && |s.queue| < l.maxQueue
      then [Queued(a.candidate, s.templates[a.candidate.header])] else []
  }

  /** The candidates handed to the daemon so far, in order. */
  ghost function Handed(states: seq<State>, actions: seq<Action>, n: nat): seq<Queued>
    requires n <= |actions| && |states| == |actions| + 1
  {
    if n == 0 then []
    else
      Handed(states, actions, n - 1) +
      if actions[n - 1] == Take && states[n].worker.Submitting? then [states[n].worker.job] else []
  }

  lemma TakeMoves(handed: seq<Queued>, queue: seq<Queued>)
    requires queue != []
    ensures (handed + [queue[0]]) + queue[1..] == handed + queue
  {
  }

  lemma {:induction false} FifoStep(
    l: Limits, s: State, a: Action, s': State, accepted: seq<Queued>, handed: seq<Queued>)
    requires l.maxTemplates > 0 && Enabled(s, a) && s' == Next(l, s, a) && Within(handed + s.queue, accepted)
    ensures var more := if a.Enqueue? && s.running && !s.stopRequested && a.candidate.header in s.templates
                           && |s.queue| < l.maxQueue
                        then [Queued(a.candidate, s.templates[a.candidate.header])] else [];
      var gone := if a == Take && s'.worker.Submitting? then [s'.worker.job] else [];
      Within((handed + gone) + s'.queue, accepted + more)
  {
    hide Within, Evicted, Remembered;
    assert accepted + [] == accepted && handed + [] == handed;
    match a
    case Enqueue(c) =>
      if EnqueueResult(l, s, c) == WasQueued {
        var q := Queued(c, s.templates[c.header]);
        WithinAppend(handed + s.queue, accepted, q);
        assert handed + (s.queue + [q]) == (handed + s.queue) + [q];
      }
    case Take => TakeMoves(handed, s.queue);
    case Retire =>
      SiblingsWithin(s.queue, s.worker.job.candidate.header);
      WithinBehind(handed, s'.queue, s.queue);
      WithinThrough(handed + s'.queue, handed + s.queue, accepted);
    case FinishStop =>
      NothingWithin(s.queue);
      WithinBehind(handed, [], s.queue);
      WithinThrough(handed + [], handed + s.queue, accepted);
    case Remember(h, blob) => RememberKeepsQueue(l, s, h, blob);
    case _ =>
  }

  lemma NothingWithin<T>(b: seq<T>)
    ensures Within([], b)
  {
  }

  lemma RememberKeepsQueue(l: Limits, s: State, h: Header, blob: ByteString)
    requires l.maxTemplates > 0
    ensures Remembered(l, s, h, blob).queue == s.queue
  {
  }

  /** In every interleaving, the daemon is handed candidates in the order in which they were queued, each with
      the template it was queued with, and none that was not queued. */
  lemma {:induction false} RunIsFifo(l: Limits, states: seq<State>, actions: seq<Action>, i: nat)
    requires IsRun(l, states, actions) && i <= |actions|
    ensures Within(Handed(states, actions, i) + states[i].queue, Accepted(l, states, actions, i))
  {
    hide Within, Next, Enabled;
    if i == 0 {
      NothingWithin<Queued>([]);
      assert Handed(states, actions, 0) + states[0].queue == [];
    } else {
      RunIsFifo(l, states, actions, i - 1);
      FifoStep(l, states[i - 1], actions[i - 1], states[i],
               Accepted(l, states, actions, i - 1), Handed(states, actions, i - 1));
    }
  }
}
