/** Delivery over whole runs: what the agent buffers leaves the buffer acknowledged by the
    server or evicted oldest first, and nothing is lost, duplicated or reordered. */
module Delivery {
  import opened Common
  import opened Json
  import opened SpoolFormat
  import opened Spooling

  datatype Fate = Acknowledged | Evicted

  /** Everything ever buffered, what became of the samples that left, and the batches the
      server acknowledged. */
  datatype Ledger<S> = Ledger(enqueued: seq<S>, fates: seq<Fate>, batches: seq<seq<S>>)

  /** The samples that left with the given fate, in order. */
  ghost function WithFate<S>(samples: seq<S>, fates: seq<Fate>, f: Fate): seq<S>
    requires |fates| <= |samples|
  {
    if |fates| == 0 then [] else
      var n := |fates| - 1;
      WithFate(samples, fates[..n], f) + if fates[n] == f then [samples[n]] else []
  }

  ghost function Concat<S>(batches: seq<seq<S>>): seq<S> {
    if |batches| == 0 then [] else Concat(batches[..|batches|-1]) + batches[|batches|-1]
  }

  /** The buffer is the tail of everything enqueued, and what was acknowledged is, in order,
      exactly the acknowledged batches. */
  ghost predicate Accounted<S>(queue: seq<S>, l: Ledger<S>) {
    && |l.fates| <= |l.enqueued|
    && queue == l.enqueued[|l.fates|..]
    && WithFate(l.enqueued, l.fates, Acknowledged) == Concat(l.batches)
  }

  ghost function Left(f: Fate, n: nat): seq<Fate> {
    seq(n, i => f)
  }

  /** Samples are evicted only when the buffer overflows, down to the capacity. */
  ghost function Overflow<S>(queue: seq<S>, capacity: nat): nat {
    if |queue| + 1 > capacity + Slack(capacity) then |queue| + 1 - capacity else 0
  }

  ghost function AfterEnqueue<S>(l: Ledger<S>, queue: seq<S>, s: S, capacity: nat): Ledger<S> {
    l.(enqueued := l.enqueued + [s], fates := l.fates + Left(Evicted, Overflow(queue, capacity)))
  }

  ghost function AfterFlush<S>(l: Ledger<S>, batch: seq<S>, acknowledged: bool): Ledger<S> {
    if !acknowledged || |batch| == 0 then l
    else l.(fates := l.fates + Left(Acknowledged, |batch|), batches := l.batches + [batch])
  }

  lemma {:induction false} MoreSamples<S>(a: seq<S>, more: seq<S>, fates: seq<Fate>, f: Fate)
    requires |fates| <= |a|
    ensures WithFate(a + more, fates, f) == WithFate(a, fates, f)
  {
    if |fates| == 0 {
    } else {
      MoreSamples(a, more, fates[..|fates|-1], f);
    }
  }

  lemma LeftMore(f: Fate, n: nat)
    requires n > 0
    ensures Left(f, n) == Left(f, n - 1) + [f]
  {}

  lemma FateSnoc<S>(a: seq<S>, fates: seq<Fate>, f: Fate, g: Fate)
    requires |fates| < |a|
    ensures WithFate(a, fates + [g], f) == WithFate(a, fates, f) + if g == f then [a[|fates|]] else []
  {
    assert (fates + [g])[..|fates|] == fates;
  }

  lemma {:induction false} MoreFates<S>(a: seq<S>, fates: seq<Fate>, n: nat, f: Fate, g: Fate)
    requires |fates| + n <= |a|
    ensures WithFate(a, fates + Left(g, n), f)
            == WithFate(a, fates, f) + if f == g then a[|fates|..|fates|+n] else []
  {
    if n == 0 {
      assert fates + Left(g, n) == fates;
    } else {
      MoreFates(a, fates, n - 1, f, g);
      LeftMore(g, n);
      assert |Left(g, n - 1)| == n - 1;
      hide Left, WithFate;
      assert fates + Left(g, n) == fates + Left(g, n - 1) + [g];
      FateSnoc(a, fates + Left(g, n - 1), f, g);
      assert a[|fates|..|fates|+n] == a[|fates|..|fates|+n-1] + [a[|fates|+n-1]];
    }
  }

  lemma EnqueueAccounted<S>(queue: seq<S>, l: Ledger<S>, s: S, capacity: nat)
    requires Accounted(queue, l) && 1 <= capacity
    ensures Accounted(Pushed(queue, s, capacity), AfterEnqueue(l, queue, s, capacity))
  {
    var n := Overflow(queue, capacity);
    MoreSamples(l.enqueued, [s], l.fates, Acknowledged);
    MoreFates(l.enqueued + [s], l.fates, n, Acknowledged, Evicted);
    assert queue + [s] == (l.enqueued + [s])[|l.fates|..];
  }

  lemma FlushAccounted<S>(queue: seq<S>, l: Ledger<S>, n: nat, acknowledged: bool)
    requires Accounted(queue, l) && n <= |queue|
    ensures Accounted(if acknowledged then queue[n..] else queue, AfterFlush(l, queue[..n], acknowledged))
  {
    if acknowledged && n > 0 {
      MoreFates(l.enqueued, l.fates, n, Acknowledged, Acknowledged);
      MoreBatches(l.batches, queue[..n]);
      hide WithFate, Concat;
      assert queue[..n] == l.enqueued[|l.fates|..|l.fates|+n];
      assert queue[n..] == l.enqueued[|l.fates|+n..];
    }
  }

  lemma MoreBatches<S>(batches: seq<seq<S>>, batch: seq<S>)
    ensures Concat(batches + [batch]) == Concat(batches) + batch
  {
    assert (batches + [batch])[..|batches|] == batches;
  }

  function Bytes(file: Option<bytes>): bytes {
    if file.None? then [] else file.value
  }

  /** The bytes an append of s adds to the file. */
  function Addition<S>(c: Codec<S>, file: Option<bytes>, s: S): bytes
    requires c.marshal(s).Some?
  {
    Appendix(Bytes(file), c.marshal(s).value)
  }

  /** n bytes of an append. */
  predicate PartOfAddition<S>(c: Codec<S>, file: Option<bytes>, s: S, n: nat) {
    c.marshal(s).Some? && n <= |Addition(c, file, s)|
  }

  lemma TornAccounted<S(!new)>(c: Codec<S>, file: Option<bytes>, l: Ledger<S>, s: S, n: nat)
    requires Lawful(c) && Accounted(Held(c, file), l) && PartOfAddition(c, file, s, n)
    ensures var addition := Addition(c, file, s);
            Accounted(Held(c, Some(Bytes(file) + addition[..n])),
                      l.(enqueued := l.enqueued + if n + 1 < |addition| then [] else [s]))
  {
    var raw, queue := Bytes(file), Held(c, file);
    assert queue == Decode(c, raw);
    AppendCutShort(c, raw, s, c.marshal(s).value, n);
    SampleAccounted(queue, l, s);
    hide Decode, Lawful, Appendix, Accounted;
    assert l.enqueued + [] == l.enqueued;
  }

  lemma SampleAccounted<S>(queue: seq<S>, l: Ledger<S>, s: S)
    requires Accounted(queue, l)
    ensures Accounted(queue + [s], l.(enqueued := l.enqueued + [s]))
  {
    MoreSamples(l.enqueued, [s], l.fates, Acknowledged);
    assert queue + [s] == (l.enqueued + [s])[|l.fates|..];
  }

  // ---- what happens to an agent ----

  /** Torn is an append the agent died in, after n bytes of what it had to write. */
  datatype Event<S> = Enqueue(sample: S) | Flush(acknowledged: bool) | Restart | Torn(sample: S, n: nat)

  datatype Agent<S> = Agent(file: Option<bytes>, ledger: Ledger<S>)

  /** The file after a completed operation is any file that holds the right samples. */
  ghost predicate Step<S>(c: Codec<S>, capacity: nat, batchSize: nat, a: Agent<S>, e: Event<S>, b: Agent<S>) {
    var queue, after := Held(c, a.file), Held(c, b.file);
    match e
    case Enqueue(s) =>
      c.marshal(s).Some? && after == Pushed(queue, s, capacity) && b.ledger == AfterEnqueue(a.ledger, queue, s, capacity)
    case Flush(acknowledged) =>
      var batch := queue[..Min(batchSize, |queue|)];
      && after == (if acknowledged then queue[|batch|..] else queue)
      && b.ledger == AfterFlush(a.ledger, batch, acknowledged)
    case Restart => b == a
    case Torn(s, n) => TornAppend(c, a, s, n, b)
  }

  /** n bytes of an append reached the file; without its last byte the line is whole. */
  ghost predicate TornAppend<S>(c: Codec<S>, a: Agent<S>, s: S, n: nat, b: Agent<S>) {
    && PartOfAddition(c, a.file, s, n)
    && var addition := Addition(c, a.file, s);
       && b.file == Some(Bytes(a.file) + addition[..n])
       && b.ledger == a.ledger.(enqueued := a.ledger.enqueued + if n + 1 < |addition| then [] else [s])
  }

  /** The agent's samples are accounted for before a step. */
  ghost predicate StepsFrom<S(!new)>(c: Codec<S>, capacity: nat, batchSize: nat, a: Agent<S>, e: Event<S>, b: Agent<S>) {
    && Accounted(Held(c, a.file), a.ledger)
    && Step(c, capacity, batchSize, a, e, b)
  }

  // ---- the client ----

  /** The push client: one loop enqueues samples and flushes batches. The ledger is ghost. */
  class Client<S(!new)> {
    const spool: Spool<S>
    const batchSize: nat
    ghost var ledger: Ledger<S>

    /** Whatever the spool file already holds counts as enqueued. */
    constructor (spool: Spool<S>, batchSize: int)
      requires spool.Valid()
      ensures Valid() && this.spool == spool
      ensures this.batchSize == if batchSize < 1 then 60 else batchSize
      ensures ledger == Ledger(spool.Contents(), [], [])
    {
      this.spool := spool;
      this.batchSize := if batchSize < 1 then 60 else batchSize;
      ledger := Ledger(spool.Contents(), [], []);
    }

    ghost function State(): Agent<S>
      reads this, spool
    {
      Agent(spool.file, ledger)
    }

    ghost predicate Valid()
      reads this, spool
    {
      spool.Valid() && 1 <= batchSize && Accounted(spool.Contents(), ledger)
    }

    method Enqueue(s: S) returns (ok: bool)
      requires Valid()
      modifies this, spool
      ensures Valid()
      ensures ok ==> ledger == AfterEnqueue(old(ledger), old(spool.Contents()), s, spool.capacity)
      ensures ok ==> |spool.Contents()| <= spool.capacity + Slack(spool.capacity)
      ensures !ok ==> ledger == old(ledger) && spool.Contents() == old(spool.Contents())
      ensures ok ==> Step(spool.codec, spool.capacity, batchSize, old(State()), Event.Enqueue(s), State())
    {
      ghost var queue := spool.Contents();
      ok := spool.Append(s);
      if ok {
        EnqueueAccounted(queue, ledger, s, spool.capacity);
        ledger := AfterEnqueue(ledger, queue, s, spool.capacity);
      }
    }

    /** Delivers the oldest batch; `acknowledged` is whether the server answered 2xx. */
    method Flush(acknowledged: bool)
      requires Valid()
      modifies this, spool
      ensures Valid()
      ensures ledger == AfterFlush(old(ledger), old(spool.Contents())[..Min(batchSize, |old(spool.Contents())|)], acknowledged)
      ensures !acknowledged ==> spool.Contents() == old(spool.Contents())
      ensures Step(spool.codec, spool.capacity, batchSize, old(State()), Event.Flush(acknowledged), State())
    {
      ghost var queue := spool.Contents();
      var batch := spool.Flush(batchSize, acknowledged);
      FlushAccounted(queue, ledger, |batch|, acknowledged);
      ledger := AfterFlush(ledger, batch, acknowledged);
    }
  }

  // ---- runs ----

  ghost predicate IsRun<S>(c: Codec<S>, capacity: nat, batchSize: nat, agents: seq<Agent<S>>, events: seq<Event<S>>) {
    && |agents| == |events| + 1
    && Accounted(Held(c, agents[0].file), agents[0].ledger)
    && forall i :: 0 <= i < |events| ==> Step(c, capacity, batchSize, agents[i], events[i], agents[i+1])
  }

  lemma StepAccounted<S(!new)>(c: Codec<S>, capacity: nat, batchSize: nat, a: Agent<S>, e: Event<S>, b: Agent<S>)
    requires Lawful(c) && 1 <= capacity && StepsFrom(c, capacity, batchSize, a, e, b)
    ensures Accounted(Held(c, b.file), b.ledger)
    ensures e.Enqueue? ==> |Held(c, b.file)| <= capacity + Slack(capacity)
  {
    var queue := Held(c, a.file);
    hide WithFate, Concat, Decode, Lawful, Appendix, Accounted;
    match e
    case Enqueue(s) => EnqueueAccounted(queue, a.ledger, s, capacity);
    case Flush(acknowledged) =>
      FlushAccounted(queue, a.ledger, Min(batchSize, |queue|), acknowledged);
    case Restart =>
    case Torn(s, n) => TornAccounted(c, a.file, a.ledger, s, n);
  }

  /** Over every sequential run of enqueues, flushes, restarts and torn appends the buffer is
      the tail of what was enqueued, whatever left was acknowledged or evicted, and the
      acknowledged samples are exactly the acknowledged batches. */
  lemma {:induction false} RunAccounted<S(!new)>(
      c: Codec<S>, capacity: nat, batchSize: nat, agents: seq<Agent<S>>, events: seq<Event<S>>, i: nat)
    requires Lawful(c) && 1 <= capacity && IsRun(c, capacity, batchSize, agents, events) && i <= |events|
    ensures Accounted(Held(c, agents[i].file), agents[i].ledger)
    ensures i > 0 && events[i-1].Enqueue? ==> |Held(c, agents[i].file)| <= capacity + Slack(capacity)
  {
    hide Accounted, Lawful, Step, Held;
    if i == 0 {
    } else {
      RunAccounted(c, capacity, batchSize, agents, events, i - 1);
      StepAccounted(c, capacity, batchSize, agents[i-1], events[i-1], agents[i]);
    }
  }
}
