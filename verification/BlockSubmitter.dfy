/** The single-worker block-submit queue, as a state machine over its critical sections.

    Every mutex-protected section is one atomic action; the call to the daemon happens between two of
    them, so any other action may run while a submission is in flight. */
module BlockSubmitter {
  import opened Basics
  import opened Bytes
  import opened Orders

  type Header = Hash256

  datatype Candidate = Candidate(zanoHeight: U64, header: Header, nonce: U64)
  datatype Queued = Queued(candidate: Candidate, blob: ByteString)

  /** Where the worker thread is: waiting, inside the daemon call, or about to clean up after success. */
  datatype Worker = NotRunning | Waiting | Submitting(job: Queued) | Retiring(job: Queued)

  datatype State = State(
    running: bool,
    stopRequested: bool,
    templates: map<Header, ByteString>,
    order: seq<Header>,
    queue: seq<Queued>,
    worker: Worker)

  datatype Limits = Limits(maxTemplates: nat, maxQueue: nat)

  const INITIAL := State(false, false, map[], [], [], NotRunning)

  // ---- The block blob --------------------------------------------------------------------------

  const NONCE_END: nat := 9

  function LittleEndian(value: nat, width: nat): (b: ByteString)
    ensures |b| == width
  {
    if width == 0 then [] else [value % 256] + LittleEndian(value / 256, width - 1)
  }

  function FromLittleEndian(b: ByteString): nat {
    if b == [] then 0 else b[0] + 256 * FromLittleEndian(b[1..])
  }

  /** The template with its nonce patched in place; templates too short for a nonce are refused. */
  function WithNonce(blob: ByteString, nonce: U64): Outcome<ByteString> {
    if |blob| < NONCE_END then Thrown
    else Value(blob[..1] + LittleEndian(nonce, 8) + blob[NONCE_END..])
  }

  lemma {:induction false} LittleEndianRoundTrip(value: nat, width: nat)
    requires value < Pow256(width)
    ensures FromLittleEndian(LittleEndian(value, width)) == value
  {
    if width > 0 {
      LittleEndianRoundTrip(value / 256, width - 1);
      assert LittleEndian(value, width)[1..] == LittleEndian(value / 256, width - 1);
    }
  }

  /** Patching changes the nonce bytes and nothing else, and they read back as the nonce. */
  lemma NonceIsPatched(blob: ByteString, nonce: U64)
    requires |blob| >= NONCE_END
    ensures var patched := WithNonce(blob, nonce).value;
      && |patched| == |blob| && patched[0] == blob[0] && patched[NONCE_END..] == blob[NONCE_END..]
      && FromLittleEndian(patched[1..NONCE_END]) == nonce
  {
    var patched := WithNonce(blob, nonce).value;
    assert patched[1..NONCE_END] == LittleEndian(nonce, 8);
    Pow256Of32();
    LittleEndianRoundTrip(nonce, 8);
  }

  // ---- The actions -----------------------------------------------------------------------------

  datatype Action =
    | Start
    | RequestStop
    | WorkerStops
    | FinishStop
    | Remember(header: Header, blob: ByteString)
    | Enqueue(candidate: Candidate)
    | Take
    | SubmitSucceeds
    | SubmitFails
    | Retire

  /** Drop the oldest headers until at most `max` are left, sparing `newest`. */
  ghost function Evicted(order: seq<Header>, newest: Header, max: nat): seq<Header>
    requires max > 0 && Distinct(order)
    decreases |order|, if order != [] && order[0] == newest then 1 else 0
  {
    if |order| <= max then order
    else if order[0] == newest then
      RotateDistinct(order);
      Evicted(order[1..] + [newest], newest, max)
    else Evicted(order[1..], newest, max)
  }

  lemma RotateDistinct(order: seq<Header>)
    requires Distinct(order) && order != []
    ensures Distinct(order[1..] + [order[0]])
  {
    DistinctConcat(order[1..], [order[0]]);
  }

  function Without(order: seq<Header>, h: Header): seq<Header> {
    if order == [] then []
    else (if order[0] == h then [] else [order[0]]) + Without(order[1..], h)
  }

  function WithoutSiblings(queue: seq<Queued>, h: Header): seq<Queued> {
    if queue == [] then []
    else (if queue[0].candidate.header == h then [] else [queue[0]]) + WithoutSiblings(queue[1..], h)
  }

  ghost function Restrict(templates: map<Header, ByteString>, order: seq<Header>): map<Header, ByteString> {
    map h | h in templates && h in order :: templates[h]
  }

  /** A header that is already known keeps its place in the order. */
  ghost function WithHeader(s: State, h: Header): seq<Header> {
    if h in s.templates then s.order else s.order + [h]
  }

  /** Defined through the order, which never repeats a header (see `Inv`). */
  ghost function Remembered(l: Limits, s: State, h: Header, blob: ByteString): State
    requires l.maxTemplates > 0
  {
    var order := WithHeader(s, h);
    if Distinct(order) then
      var kept := Evicted(order, h, l.maxTemplates);
      s.(templates := Restrict(s.templates[h := blob], kept), order := kept)
    else s
  }

  lemma WithHeaderDistinct(l: Limits, s: State, h: Header)
    requires Inv(l, s)
    ensures Distinct(WithHeader(s, h)) && h in WithHeader(s, h)
  {
    if h !in s.templates {
      DistinctConcat(s.order, [h]);
    }
  }

  lemma WithHeaderListed(l: Limits, s: State, h: Header, blob: ByteString)
    requires Inv(l, s)
    ensures Listed(WithHeader(s, h), s.templates[h := blob]) && h in WithHeader(s, h)
    ensures Distinct(WithHeader(s, h))
  {
    WithHeaderDistinct(l, s, h);
  }

  datatype EnqueueStatus = WasQueued | StaleTemplate | QueueFull | Stopped

  function EnqueueResult(l: Limits, s: State, c: Candidate): EnqueueStatus {
    if !s.running || s.stopRequested then Stopped
    else if c.header !in s.templates then StaleTemplate
    else if |s.queue| >= l.maxQueue then QueueFull
    else WasQueued
  }

  /** Success retires the header: its queued siblings and its template go. */
  function Retired(s: State, h: Header): State {
    s.(queue := WithoutSiblings(s.queue, h),
       templates := s.templates - {h},
       order := Without(s.order, h),
       worker := Waiting)
  }

  /** The order lists the template keys, each once. */
  ghost predicate Listed(order: seq<Header>, templates: map<Header, ByteString>) {
    Distinct(order) && forall h :: h in order <==> h in templates
  }

  /** What holds in every reachable state. */
  ghost predicate Inv(l: Limits, s: State) {
    && Listed(s.order, s.templates)
    && |s.templates| <= l.maxTemplates && |s.order| == |s.templates|
    && |s.queue| <= l.maxQueue
    && (forall h | h in s.templates :: |s.templates[h]| >= NONCE_END)
    && (forall q | q in s.queue :: |q.blob| >= NONCE_END)
    && (s.worker.Submitting? || s.worker.Retiring? ==> |s.worker.job.blob| >= NONCE_END)
    && (s.worker.NotRunning? || s.running)
  }

  ghost predicate Enabled(s: State, a: Action) {
    match a
    case Start => !s.running
    case RequestStop => s.running
    case WorkerStops => s.worker == Waiting && s.stopRequested
    case FinishStop => s.running && s.stopRequested && s.worker == NotRunning
    case Remember(_, blob) => |blob| >= NONCE_END
    case Enqueue(_) => true
    case Take => s.worker == Waiting && !s.stopRequested && s.queue != []
    case SubmitSucceeds => s.worker.Submitting?
    case SubmitFails => s.worker.Submitting?
    case Retire => s.worker.Retiring?
  }

  ghost function Next(l: Limits, s: State, a: Action): State
    requires l.maxTemplates > 0 && Enabled(s, a)
  {
    match a
    case Start => s.(running := true, stopRequested := false, worker := Waiting)
    case RequestStop => s.(stopRequested := true)
    case WorkerStops => s.(worker := NotRunning)
    case FinishStop => s.(running := false, queue := [])
    case Remember(h, blob) => Remembered(l, s, h, blob)
    case Enqueue(c) =>
      if EnqueueResult(l, s, c) == WasQueued
      then s.(queue := s.queue + [Queued(c, s.templates[c.header])]) else s
    case Take => s.(queue := s.queue[1..], worker := Submitting(s.queue[0]))
    case SubmitSucceeds => s.(worker := Retiring(s.worker.job))
    case SubmitFails => s.(worker := Waiting)
    case Retire => Retired(s, s.worker.job.candidate.header)
  }

  /** One round of eviction that meets the newest header: it goes to the end. */
  lemma RotateStep(
    all: map<Header, ByteString>, templates: map<Header, ByteString>, order: seq<Header>, newest: Header, max: nat)
    requires max > 0 && |order| > max && Listed(order, templates) && order[0] == newest
    requires templates == Restrict(all, order)
    ensures var order' := order[1..] + [newest];
      && Distinct(order) && Listed(order', templates) && |order'| == |order| && order'[0] != newest
      && newest in order' && templates == Restrict(all, order')
      && Evicted(order', newest, max) == Evicted(order, newest, max)
  {
    RotateDistinct(order);
    assert order == [newest] + order[1..];
    assert forall h :: h in order[1..] + [newest] <==> h in order;
  }

  /** One round that meets another header: it is dropped. */
  lemma DropStep(
    all: map<Header, ByteString>, templates: map<Header, ByteString>, order: seq<Header>, newest: Header, max: nat)
    requires max > 0 && |order| > max && Listed(order, templates) && order[0] != newest && newest in order
    requires templates == Restrict(all, order)
    ensures var order', templates' := order[1..], templates - {order[0]};
      && Distinct(order) && Listed(order', templates') && |order'| == |templates'|
      && newest in order' && templates' == Restrict(all, order')
      && Evicted(order', newest, max) == Evicted(order, newest, max)
  {
    EvictedUnfold(order, newest, max);
    hide Evicted;
    DropListed(all, templates, order);
    SizeOfOrder(order[1..], templates - {order[0]});
    assert order == [order[0]] + order[1..];
  }

  lemma DropListed(all: map<Header, ByteString>, templates: map<Header, ByteString>, order: seq<Header>)
    requires Listed(order, templates) && order != [] && templates == Restrict(all, order)
    ensures Listed(order[1..], templates - {order[0]})
    ensures templates - {order[0]} == Restrict(all, order[1..])
  {
    DistinctTail(order);
    hide Distinct;
    assert order == [order[0]] + order[1..];
    assert forall h :: h in order[1..] <==> h in order && h != order[0];
  }

  lemma DistinctTail(order: seq<Header>)
    requires Distinct(order) && order != []
    ensures Distinct(order[1..]) && order[0] !in order[1..]
  {
  }

  lemma EvictedUnfold(order: seq<Header>, newest: Header, max: nat)
    requires max > 0 && |order| > max && Distinct(order) && order[0] != newest
    ensures Distinct(order[1..]) && Evicted(order[1..], newest, max) == Evicted(order, newest, max)
  {
  }

  // ---- Every state -----------------------------------------------------------------------------

  lemma {:induction false} EvictedFacts(order: seq<Header>, newest: Header, max: nat)
    requires max > 0 && Distinct(order) && newest in order
    ensures var kept := Evicted(order, newest, max);
      && Distinct(kept) && newest in kept && |kept| == Min(|order|, max)
      && (forall h | h in kept :: h in order)
    decreases |order|, if order != [] && order[0] == newest then 1 else 0
  {
    if |order| > max {
      if order[0] == newest {
        RotateDistinct(order);
        EvictedFacts(order[1..] + [newest], newest, max);
      } else {
        assert newest in order[1..];
        EvictedFacts(order[1..], newest, max);
      }
    }
  }

  /** Starting from a state within bounds at most one header goes: the oldest. */
  lemma EvictsOldest(order: seq<Header>, h: Header, max: nat)
    requires max > 0 && Distinct(order + [h]) && |order| <= max
    ensures Evicted(order + [h], h, max) == if |order| < max then order + [h] else order[1..] + [h]
  {
    var all := order + [h];
    if |order| == max {
      assert all[0] == order[0] && all[|order|] == h;
      assert all[1..] == order[1..] + [h];
    }
  }

  lemma SizeOfOrder(order: seq<Header>, templates: map<Header, ByteString>)
    requires Listed(order, templates)
    ensures |order| == |templates|
  {
    assert Elements(order) == templates.Keys;
    DistinctSize(order);
  }

  lemma RememberKeepsInv(l: Limits, s: State, h: Header, blob: ByteString)
    requires l.maxTemplates > 0 && Inv(l, s) && |blob| >= NONCE_END
    ensures var s' := Remembered(l, s, h, blob);
      && Inv(l, s') && h in s'.templates && s'.templates[h] == blob
      && s'.order == if h in s.templates then s.order
                     else if |s.templates| < l.maxTemplates then s.order + [h] else s.order[1..] + [h]
  {
    WithHeaderDistinct(l, s, h);
    EvictedFacts(WithHeader(s, h), h, l.maxTemplates);
    if h !in s.templates {
      EvictsOldest(s.order, h, l.maxTemplates);
    }
    hide Evicted;
    var s' := Remembered(l, s, h, blob);
    SizeOfOrder(s'.order, s'.templates);
  }

  lemma {:induction false} WithoutFacts(order: seq<Header>, h: Header)
    ensures |Without(order, h)| <= |order| && (forall x :: x in Without(order, h) <==> x in order && x != h)
    ensures Distinct(order) ==> Distinct(Without(order, h))
  {
    if order != [] {
      WithoutFacts(order[1..], h);
      assert order == [order[0]] + order[1..];
      if Distinct(order) && order[0] != h {
        DistinctConcat([order[0]], Without(order[1..], h));
      }
    }
  }

  lemma {:induction false} WithoutSiblingsFacts(queue: seq<Queued>, h: Header)
    ensures |WithoutSiblings(queue, h)| <= |queue|
    ensures forall q :: q in WithoutSiblings(queue, h) <==> q in queue && q.candidate.header != h
  {
    if queue != [] {
      WithoutSiblingsFacts(queue[1..], h);
      assert queue == [queue[0]] + queue[1..];
    }
  }

  lemma RetireKeepsInv(l: Limits, s: State)
    requires Inv(l, s) && s.worker.Retiring?
    ensures Inv(l, Retired(s, s.worker.job.candidate.header))
  {
    var h := s.worker.job.candidate.header;
    var s' := Retired(s, h);
    WithoutFacts(s.order, h);
    WithoutSiblingsFacts(s.queue, h);
    hide Without, WithoutSiblings;
    SizeOfOrder(s'.order, s'.templates);
    assert s'.templates.Keys == s.templates.Keys - {h};
  }

  /** Whatever action runs next, the order lists the template keys once each, both bounds hold, and every
      template, queued blob and submission in flight has room for a nonce. */
  lemma NextKeepsInv(l: Limits, s: State, a: Action)
    requires l.maxTemplates > 0 && Inv(l, s) && Enabled(s, a)
    ensures Inv(l, Next(l, s, a))
  {
    match a
    case Remember(h, blob) => RememberKeepsInv(l, s, h, blob);
    case Retire => RetireKeepsInv(l, s);
    case _ =>
  }

  // ---- Every run -------------------------------------------------------------------------------

  ghost predicate IsRun(l: Limits, states: seq<State>, actions: seq<Action>) {
    && l.maxTemplates > 0
    && |states| == |actions| + 1 && states[0] == INITIAL
    && forall i | 0 <= i < |actions| ::
         Enabled(states[i], actions[i]) && states[i + 1] == Next(l, states[i], actions[i])
  }

  /** The invariant holds in every state of every interleaving. */
  lemma {:induction false} RunKeepsInv(l: Limits, states: seq<State>, actions: seq<Action>, i: nat)
    requires IsRun(l, states, actions) && i <= |actions|
    ensures Inv(l, states[i])
  {
    if i > 0 {
      RunKeepsInv(l, states, actions, i - 1);
      NextKeepsInv(l, states[i - 1], actions[i - 1]);
    }
  }

  ghost predicate Solved(s: State, a: Action, h: Header) {
    a == SubmitSucceeds && s.worker.Submitting? && s.worker.job.candidate.header == h
  }

  /** The header cannot be submitted again from here: it is being retired, or nothing refers to it. */
  ghost predicate Spent(s: State, h: Header) {
    || (s.worker.Retiring? && s.worker.job.candidate.header == h)
    || (&& h !in s.templates
        && (forall q | q in s.queue :: q.candidate.header != h)
        && !(s.worker.Submitting? && s.worker.job.candidate.header == h))
  }

  ghost predicate Renews(s: State, a: Action, h: Header) {
    a.Remember? && a.header == h && !(s.worker.Retiring? && s.worker.job.candidate.header == h)
  }

  lemma SpentStays(l: Limits, s: State, a: Action, h: Header)
    requires l.maxTemplates > 0 && Inv(l, s) && Enabled(s, a) && Spent(s, h)
    ensures !Solved(s, a, h)
    ensures !Renews(s, a, h) ==> Spent(Next(l, s, a), h)
  {
    if !Renews(s, a, h) {
      match a
      case Remember(other, blob) =>
      case Retire =>
        var done := s.worker.job.candidate.header;
        WithoutSiblingsFacts(s.queue, done);
      case Enqueue(c) =>
        assert EnqueueResult(l, s, c) == WasQueued ==> c.header in s.templates;
      case _ =>
    }
  }

  lemma {:induction false} SpentUntilRenewed(
    l: Limits, states: seq<State>, actions: seq<Action>, i: nat, j: nat, h: Header)
    requires IsRun(l, states, actions) && i < j < |actions|
    requires Solved(states[i], actions[i], h)
    requires forall k | i < k < j :: !Renews(states[k], actions[k], h)
    ensures Spent(states[j], h)
  {
    hide Spent, Solved, Renews, Next, Inv, Enabled;
    if j == i + 1 {
      SolvedIsSpent(l, states[i], actions[i], h);
    } else {
      SpentUntilRenewed(l, states, actions, i, j - 1, h);
      RunKeepsInv(l, states, actions, j - 1);
      SpentStays(l, states[j - 1], actions[j - 1], h);
    }
  }

  lemma SolvedIsSpent(l: Limits, s: State, a: Action, h: Header)
    requires l.maxTemplates > 0 && Enabled(s, a) && Solved(s, a, h)
    ensures Spent(Next(l, s, a), h)
  {
  }

  /** In every interleaving, two successful submissions of one header are separated by a new
      `remember_template` of it, and one that came after the first success had been cleaned up. */
  lemma NoDoubleSubmit(l: Limits, states: seq<State>, actions: seq<Action>, i: nat, j: nat, h: Header)
    requires IsRun(l, states, actions) && i < j < |actions|
    requires Solved(states[i], actions[i], h) && Solved(states[j], actions[j], h)
    ensures exists k :: i < k < j && Renews(states[k], actions[k], h)
  {
    hide Spent, Solved, Renews, Next, Inv, Enabled;
    if forall k | i < k < j :: !Renews(states[k], actions[k], h) {
      SpentUntilRenewed(l, states, actions, i, j, h);
      RunKeepsInv(l, states, actions, j);
      SpentStays(l, states[j], actions[j], h);
      assert false;
    }
  }

  lemma NextIs(l: Limits, s: State, a: Action)
    requires l.maxTemplates > 0 && Enabled(s, a)
    ensures a.Remember? ==> Next(l, s, a) == Remembered(l, s, a.header, a.blob)
    ensures a.Retire? ==> Next(l, s, a) == Retired(s, s.worker.job.candidate.header)
  {
  }

  // ---- Where blobs come from -------------------------------------------------------------------

  /** One of the first `n` actions remembered this blob for this header. */
  ghost predicate Given(actions: seq<Action>, n: nat, h: Header, blob: ByteString) {
    exists k :: 0 <= k < n && k < |actions| && actions[k] == Remember(h, blob)
  }

  /** Every template, queued candidate and submission in flight carries a blob that was remembered for its
      own header. */
  ghost predicate FromRemembered(s: State, actions: seq<Action>, n: nat) {
    && (forall h | h in s.templates :: Given(actions, n, h, s.templates[h]))
    && (forall q | q in s.queue :: Given(actions, n, q.candidate.header, q.blob))
    && (s.worker.Submitting? || s.worker.Retiring? ==>
          Given(actions, n, s.worker.job.candidate.header, s.worker.job.blob))
  }

  lemma StillGiven(s: State, actions: seq<Action>, n: nat)
    requires FromRemembered(s, actions, n)
    ensures FromRemembered(s, actions, n + 1)
  {
  }

  lemma NextFromRemembered(l: Limits, s: State, actions: seq<Action>, n: nat)
    requires l.maxTemplates > 0 && Inv(l, s) && n < |actions| && Enabled(s, actions[n])
    requires FromRemembered(s, actions, n)
    ensures FromRemembered(Next(l, s, actions[n]), actions, n + 1)
  {
    hide FromRemembered, Inv, Given, Next;
    StillGiven(s, actions, n);
    var a := actions[n];
    if a.Remember? {
      GivenNow(actions, n);
      RememberStep(l, s, a, actions, n + 1);
    } else if a.Retire? {
      RetireStep(l, s, a, actions, n + 1);
    } else {
      PlainStep(l, s, a, actions, n + 1);
    }
  }

  lemma RememberStep(l: Limits, s: State, a: Action, actions: seq<Action>, n: nat)
    requires l.maxTemplates > 0 && Inv(l, s) && a.Remember? && Enabled(s, a) && Given(actions, n, a.header, a.blob)
    requires FromRemembered(s, actions, n)
    ensures FromRemembered(Next(l, s, a), actions, n)
  {
    hide Given, Inv, Remembered;
    RememberedFrom(l, s, a.header, a.blob);
  }

  lemma RetireStep(l: Limits, s: State, a: Action, actions: seq<Action>, n: nat)
    requires l.maxTemplates > 0 && a.Retire? && Enabled(s, a) && FromRemembered(s, actions, n)
    ensures FromRemembered(Next(l, s, a), actions, n)
  {
    hide Given, WithoutSiblings;
    WithoutSiblingsFacts(s.queue, s.worker.job.candidate.header);
  }

  lemma PlainStep(l: Limits, s: State, a: Action, actions: seq<Action>, n: nat)
    requires l.maxTemplates > 0 && Enabled(s, a) && FromRemembered(s, actions, n) && !a.Remember? && !a.Retire?
    ensures FromRemembered(Next(l, s, a), actions, n)
  {
    hide Given, Remembered, WithoutSiblings;
  }

  lemma GivenNow(actions: seq<Action>, n: nat)
    requires n < |actions| && actions[n].Remember?
    ensures Given(actions, n + 1, actions[n].header, actions[n].blob)
  {
  }

  lemma RememberedFrom(l: Limits, s: State, h: Header, blob: ByteString)
    requires l.maxTemplates > 0 && Inv(l, s)
    ensures var s' := Remembered(l, s, h, blob);
      && s' == s.(templates := s'.templates, order := s'.order)
      && forall x | x in s'.templates ::
           if x == h then s'.templates[x] == blob else x in s.templates && s'.templates[x] == s.templates[x]
  {
    WithHeaderDistinct(l, s, h);
    hide Evicted, Inv, WithHeader;
  }

  /** In every interleaving, whatever is submitted was remembered for the header it is submitted under. */
  lemma {:induction false} RunFromRemembered(l: Limits, states: seq<State>, actions: seq<Action>, i: nat)
    requires IsRun(l, states, actions) && i <= |actions|
    ensures FromRemembered(states[i], actions, i)
  {
    hide FromRemembered, Inv, Next, Enabled;
    if i == 0 {
      NothingYet(actions);
    } else {
      RunFromRemembered(l, states, actions, i - 1);
      RunKeepsInv(l, states, actions, i - 1);
      NextFromRemembered(l, states[i - 1], actions, i - 1);
    }
  }

  lemma NothingYet(actions: seq<Action>)
    ensures FromRemembered(INITIAL, actions, 0)
  {
  }

  // ---- The class -------------------------------------------------------------------------------

  /** The submitter's shared fields.  Each method is one critical section; `worker` records what the
      worker thread holds between two of them. */
  class BlockCandidateSubmitter {
    const limits: Limits
    var running: bool
    var stopRequested: bool
    var templates: map<Header, ByteString>
    var templateOrder: seq<Header>
    var queue: seq<Queued>
    var worker: Worker

    ghost function Model(): State
      reads this
    {
      State(running, stopRequested, templates, templateOrder, queue, worker)
    }

    ghost predicate Valid()
      reads this
    {
      limits.maxTemplates > 0 && limits.maxQueue > 0 && Inv(limits, Model())
    }

    constructor (maxTemplates: nat, maxQueue: nat)
      requires maxTemplates > 0 && maxQueue > 0
      ensures Valid() && Model() == INITIAL && limits == Limits(maxTemplates, maxQueue)
    {
      limits := Limits(maxTemplates, maxQueue);
      running, stopRequested, templates, templateOrder := false, false, map[], [];
      queue, worker := [], NotRunning;
    }

    method Start() returns (ok: bool)
      requires Valid()
      modifies this
      ensures Valid() && ok == !old(running)
      ensures Model() == if ok then Next(limits, old(Model()), Action.Start) else old(Model())
    {
      if running {
        return false;
      }
      stopRequested, running, worker := false, true, Waiting;
      return true;
    }

    method RequestStop() returns (wasRunning: bool)
      requires Valid()
      modifies this
      ensures Valid() && wasRunning == old(running)
      ensures Model() == if wasRunning then Next(limits, old(Model()), Action.RequestStop) else old(Model())
    {
      if !running {
        return false;
      }
      stopRequested := true;
      return true;
    }

    /** After the worker has been joined. */
    method FinishStop()
      requires Valid() && Enabled(Model(), Action.FinishStop)
      modifies this
      ensures Valid() && Model() == Next(limits, old(Model()), Action.FinishStop)
    {
      running, queue := false, [];
    }

    /** The eviction loop.  The newest header is put back at the end when it comes up. */
    method EvictOldest(newest: Header)
      requires limits.maxTemplates > 0 && Listed(templateOrder, templates) && newest in templateOrder
      modifies `templates, `templateOrder
      ensures templateOrder == Evicted(old(templateOrder), newest, limits.maxTemplates)
      ensures templates == Restrict(old(templates), templateOrder)
    {
      SizeOfOrder(templateOrder, templates);
      assert Restrict(templates, templateOrder) == templates;
      hide Distinct, Restrict;
      while |templates| > limits.maxTemplates && templateOrder != []
        invariant Listed(templateOrder, templates) && newest in templateOrder
        invariant |templates| == |templateOrder|
        invariant templates == Restrict(old(templates), templateOrder)
        invariant Evicted(templateOrder, newest, limits.maxTemplates)
               == Evicted(old(templateOrder), newest, limits.maxTemplates)
        decreases |templateOrder|, if templateOrder != [] && templateOrder[0] == newest then 1 else 0
      {
        hide Listed, Evicted;
        var oldest := templateOrder[0];
        if oldest == newest {
          RotateStep(old(templates), templates, templateOrder, newest, limits.maxTemplates);
          templateOrder := templateOrder[1..] + [oldest];
        } else {
          DropStep(old(templates), templates, templateOrder, newest, limits.maxTemplates);
          templateOrder := templateOrder[1..];
          templates := templates - {oldest};
        }
      }
    }

    method StoreTemplate(header: Header, blob: ByteString)
      requires limits.maxTemplates > 0 && Listed(WithHeader(Model(), header), templates[header := blob])
      requires header in WithHeader(Model(), header)
      modifies `templates, `templateOrder
      ensures Model() == Remembered(limits, old(Model()), header, blob)
    {
      assert Distinct(WithHeader(Model(), header));
      hide Evicted, Restrict, Listed, Distinct;
      if header !in templates {
        templateOrder := templateOrder + [header];
      }
      templates := templates[header := blob];
      EvictOldest(header);
    }

    method RememberTemplate(header: Header, blob: ByteString) returns (r: Outcome<()>)
      requires Valid()
      modifies this
      ensures Valid() && r.Value? == (|blob| >= NONCE_END)
      ensures Model() == if r.Value? then Next(limits, old(Model()), Remember(header, blob)) else old(Model())
    {
      if WithNonce(blob, 0).Thrown? {
        return Thrown;
      }
      hide Inv, Next, Listed, Remembered, WithHeader, LittleEndian;
      RememberKeepsInv(limits, Model(), header, blob);
      WithHeaderListed(limits, Model(), header, blob);
      NextIs(limits, Model(), Remember(header, blob));
      StoreTemplate(header, blob);
      return Value(());
    }

    method EnqueueCandidate(candidate: Candidate) returns (status: EnqueueStatus)
      requires Valid()
      modifies this
      ensures Valid() && Model() == Next(limits, old(Model()), Enqueue(candidate))
      ensures status == EnqueueResult(limits, old(Model()), candidate)
    {
      if !running || stopRequested {
        return Stopped;
      }
      if candidate.header !in templates {
        return StaleTemplate;
      }
      if |queue| >= limits.maxQueue {
        return QueueFull;
      }
      queue := queue + [Queued(candidate, templates[candidate.header])];
      return WasQueued;
    }

    /** The worker's first critical section, once it is woken up: stop, or take the oldest candidate. */
    method WorkerWakes() returns (job: Option<Queued>)
      requires Valid() && worker == Waiting && (stopRequested || queue != [])
      modifies this
      ensures Valid()
      ensures Model() == Next(limits, old(Model()), if old(stopRequested) then WorkerStops else Take)
      ensures job.Some? == !old(stopRequested)
      ensures job.Some? ==> worker == Submitting(job.value) && WithNonce(job.value.blob, job.value.candidate.nonce).Value?
    {
      if stopRequested {
        worker := NotRunning;
        return None;
      }
      var first := queue[0];
      assert first in queue;
      queue, worker := queue[1..], Submitting(first);
      return Some(first);
    }

    /** The daemon call returned. */
    method SubmissionReturns(success: bool)
      requires Valid() && worker.Submitting?
      modifies this
      ensures Valid()
      ensures Model() == Next(limits, old(Model()), if success then SubmitSucceeds else SubmitFails)
    {
      worker := if success then Retiring(worker.job) else Waiting;
    }

    /** The worker's second critical section, after a success. */
    method RetireHeader()
      requires Valid() && worker.Retiring?
      modifies this
      ensures Valid() && Model() == Next(limits, old(Model()), Retire)
    {
      RetireKeepsInv(limits, Model());
      NextIs(limits, Model(), Retire);
      hide Inv, Without, WithoutSiblings, Next;
      var header := worker.job.candidate.header;
      queue := WithoutSiblings(queue, header);
      templates := templates - {header};
      templateOrder := Without(templateOrder, header);
      worker := Waiting;
    }
  }
}
