/**
 The bounded, expiring cache in front of the geocoding provider.  Looking up and
 remembering are atomic; between them the provider is asked without any lock, so the
 calls of concurrent searches interleave.
 */
module GeocodeCache {
  import opened Wrappers
  import opened Interference

  type CallId = nat

  datatype GeoHit = GeoHit(name: string, lat: real, lon: real)

  datatype GeocodeError = Unavailable | Unexpected

  datatype Entry = Entry(hit: GeoHit, at: int)

  /** An answer of the provider that its caller has not remembered yet. */
  datatype Answer = Answer(query: string, hit: GeoHit, at: int)

  datatype Limits = Limits(ttl: int, capacity: nat, normalize: string -> string)

  /** `log` lists every fresh insertion, `answered` says when the provider gave what an
      entry holds; neither exists at run time. */
  datatype World = World(
    clock: int,
    hits: map<string, Entry>,
    order: seq<string>,
    pending: map<CallId, Answer>,
    log: seq<string>,
    answered: map<string, int>)

  datatype Event =
    | Tick(seconds: nat)
    | Answered(call: CallId, query: string, hit: GeoHit)
    | Remember(call: CallId)

  function Initial(clock: int): World {
    World(clock, map[], [], map[], [], map[])
  }

  /** The live entry for a query, if there is one. */
  function Peek(limits: Limits, w: World, query: string): Option<GeoHit> {
    var key := limits.normalize(query);
    if key in w.hits && w.clock - w.hits[key].at < limits.ttl then Some(w.hits[key].hit) else None
  }

  function Excess(order: seq<string>, capacity: nat): nat {
    if |order| > capacity then |order| - capacity else 0
  }

  function Without(hits: map<string, Entry>, gone: seq<string>): map<string, Entry> {
    map k | k in hits && k !in gone :: hits[k]
  }

  /** Exactly these keys are gone; every other entry is as it was. */
  ghost predicate Dropped(before: map<string, Entry>, after: map<string, Entry>, gone: seq<string>) {
    && (forall k :: k in after <==> k in before && k !in gone)
    && (forall k | k in after :: after[k] == before[k])
  }

  lemma WithoutDrops(hits: map<string, Entry>, gone: seq<string>)
    ensures Dropped(hits, Without(hits, gone), gone)
  {
  }

  /** Insert or refresh the entry, then drop the oldest keys over the capacity. */
  function Store(limits: Limits, w: World, answer: Answer): World {
    var key := limits.normalize(answer.query);
    var isNew := key !in w.hits;
    var order := if isNew then w.order + [key] else w.order;
    var excess := Excess(order, limits.capacity);
    w.(hits := Without(w.hits[key := Entry(answer.hit, w.clock)], order[..excess]),
       order := order[excess..],
       log := if isNew then w.log + [key] else w.log,
       answered := w.answered[key := answer.at])
  }

  function Apply(limits: Limits, w: World, e: Event): World {
    match e
    case Tick(seconds) => w.(clock := w.clock + seconds)
    case Answered(call, query, hit) => w.(pending := w.pending[call := Answer(query, hit, w.clock)])
    case Remember(call) =>
      if call in w.pending then Store(limits, w, w.pending[call]).(pending := w.pending - {call}) else w
  }

  function Run(limits: Limits, w: World, events: seq<Event>): World
    decreases |events|
  {
    if events == [] then w else Run(limits, Apply(limits, w, events[0]), events[1..])
  }

  // ---------------------------------------------------------------------------
  // The invariant
  // ---------------------------------------------------------------------------

  ghost predicate Distinct(keys: seq<string>) {
    forall i, j | 0 <= i < j < |keys| :: keys[i] != keys[j]
  }

  predicate SuffixOf(keys: seq<string>, log: seq<string>) {
    |keys| <= |log| && log[|log| - |keys|..] == keys
  }

  /** The queue and the map hold the same keys, the queue each once. */
  ghost predicate Agree(hits: map<string, Entry>, order: seq<string>) {
    Distinct(order) && forall k :: k in order <==> k in hits
  }

  ghost predicate Timed(w: World) {
    && (forall k | k in w.hits :: k in w.answered && w.answered[k] <= w.hits[k].at <= w.clock)
    && (forall c | c in w.pending :: w.pending[c].at <= w.clock)
  }

  ghost predicate Inv(limits: Limits, w: World) {
    && Agree(w.hits, w.order)
    && |w.order| <= limits.capacity
    && SuffixOf(w.order, w.log)
    && Timed(w)
  }

  lemma EvictionKeepsAgreement(hits: map<string, Entry>, order: seq<string>, n: nat)
    requires Agree(hits, order) && n <= |order|
    ensures Agree(Without(hits, order[..n]), order[n..])
  {
    forall k ensures k in order[n..] <==> k in Without(hits, order[..n]) {
      assert order == order[..n] + order[n..];
      assert forall i | n <= i < |order| :: order[i] !in order[..n];
    }
  }

  lemma InsertionKeepsAgreement(hits: map<string, Entry>, order: seq<string>, key: string, entry: Entry)
    requires Agree(hits, order)
    ensures Agree(hits[key := entry], if key !in hits then order + [key] else order)
  {
    assert key !in hits ==> key !in order;
  }

  lemma SuffixGrows(order: seq<string>, log: seq<string>, key: string)
    requires SuffixOf(order, log)
    ensures SuffixOf(order + [key], log + [key])
  {
  }

  lemma SuffixShrinks(order: seq<string>, log: seq<string>, n: nat)
    requires SuffixOf(order, log) && n <= |order|
    ensures SuffixOf(order[n..], log)
  {
  }

  lemma StoreKeepsAgreement(limits: Limits, w: World, answer: Answer)
    requires Agree(w.hits, w.order)
    ensures Agree(Store(limits, w, answer).hits, Store(limits, w, answer).order)
  {
    var key := limits.normalize(answer.query);
    var order := if key !in w.hits then w.order + [key] else w.order;
    var hits := w.hits[key := Entry(answer.hit, w.clock)];
    InsertionKeepsAgreement(w.hits, w.order, key, Entry(answer.hit, w.clock));
    EvictionKeepsAgreement(hits, order, Excess(order, limits.capacity));
  }

  lemma StoreKeepsSuffix(limits: Limits, w: World, answer: Answer)
    requires SuffixOf(w.order, w.log)
    ensures SuffixOf(Store(limits, w, answer).order, Store(limits, w, answer).log)
  {
    var key := limits.normalize(answer.query);
    var isNew := key !in w.hits;
    var order := if isNew then w.order + [key] else w.order;
    SuffixGrows(w.order, w.log, key);
    SuffixShrinks(order, if isNew then w.log + [key] else w.log, Excess(order, limits.capacity));
  }

  lemma StoreKeepsTimed(limits: Limits, w: World, answer: Answer)
    requires Timed(w) && answer.at <= w.clock
    ensures Timed(Store(limits, w, answer))
  {
  }

  lemma StoreKeepsInv(limits: Limits, w: World, answer: Answer)
    requires Inv(limits, w) && answer.at <= w.clock
    ensures Inv(limits, Store(limits, w, answer))
  {
    StoreKeepsAgreement(limits, w, answer);
    StoreKeepsSuffix(limits, w, answer);
    StoreKeepsTimed(limits, w, answer);
  }

  lemma {:induction false} RunKeepsInv(limits: Limits, w: World, events: seq<Event>)
    requires Inv(limits, w)
    ensures Inv(limits, Run(limits, w, events))
    decreases |events|
  {
    if events != [] {
      var e := events[0];
      if e.Remember? && e.call in w.pending { StoreKeepsInv(limits, w, w.pending[e.call]); }
      RunKeepsInv(limits, Apply(limits, w, e), events[1..]);
    }
  }

  // ---------------------------------------------------------------------------
  // Guarantees
  // ---------------------------------------------------------------------------

  /** In every run the queue has no duplicates, holds exactly the map's keys, never
      exceeds the capacity, and is the tail of the log of fresh insertions: refreshing
      an entry moves nothing. */
  lemma QueueAndMapAgree(limits: Limits, clock: int, events: seq<Event>)
    ensures
      var w := Run(limits, Initial(clock), events);
      && (forall i, j | 0 <= i < j < |w.order| :: w.order[i] != w.order[j])
      && (forall k :: k in w.order <==> k in w.hits)
      && |w.order| <= limits.capacity
      && |w.order| <= |w.log| && w.order == w.log[|w.log| - |w.order|..]
  {
    RunKeepsInv(limits, Initial(clock), events);
  }

  function Min(a: nat, b: nat): nat { if a < b then a else b }

  /** No more is evicted than the bound asks for. */
  lemma StoreFillsTheCache(limits: Limits, w: World, answer: Answer)
    requires Inv(limits, w) && |w.order| == Min(limits.capacity, |w.log|)
    ensures |Store(limits, w, answer).order| == Min(limits.capacity, |Store(limits, w, answer).log|)
  {
  }

  lemma {:induction false} RunFillsTheCache(limits: Limits, w: World, events: seq<Event>)
    requires Inv(limits, w) && |w.order| == Min(limits.capacity, |w.log|)
    ensures |Run(limits, w, events).order| == Min(limits.capacity, |Run(limits, w, events).log|)
    decreases |events|
  {
    if events != [] {
      var e := events[0];
      if e.Remember? && e.call in w.pending {
        StoreKeepsInv(limits, w, w.pending[e.call]);
        StoreFillsTheCache(limits, w, w.pending[e.call]);
      }
      RunFillsTheCache(limits, Apply(limits, w, e), events[1..]);
    }
  }

  /** In every run the cache holds the last fresh insertions: all of them, or as many as its
      capacity. */
  lemma CacheIsAsFullAsItCanBe(limits: Limits, clock: int, events: seq<Event>)
    ensures
      var w := Run(limits, Initial(clock), events);
      var held := if |w.log| < limits.capacity then |w.log| else limits.capacity;
      |w.order| == held <= |w.log| && w.order == w.log[|w.log| - held..]
  {
    RunKeepsInv(limits, Initial(clock), events);
    RunFillsTheCache(limits, Initial(clock), events);
  }

  /** Remembering another answer leaves an entry as it is, as long as its key is among the
      last `capacity` keys of the queue with the new one. */
  lemma YoungEntriesSurvive(limits: Limits, w: World, answer: Answer, i: nat)
    requires Inv(limits, w) && i < |w.order| && w.order[i] != limits.normalize(answer.query)
    ensures
      var added := if limits.normalize(answer.query) in w.hits then 0 else 1;
      var w' := Store(limits, w, answer);
      && (i + limits.capacity >= |w.order| + added ==> w.order[i] in w'.hits && w'.hits[w.order[i]] == w.hits[w.order[i]])
      && (i + limits.capacity < |w.order| + added ==> w.order[i] !in w'.hits)
  {
    var key := limits.normalize(answer.query);
    var order := if key !in w.hits then w.order + [key] else w.order;
    var gone := order[..Excess(order, limits.capacity)];
    assert order[i] == w.order[i] && w.order[i] in w.hits;
    assert i < |gone| ==> gone[i] == w.order[i];
    InsertionKeepsAgreement(w.hits, w.order, key, Entry(answer.hit, w.clock));
  }

  /** What the provider has answered, over a whole run. */
  function Answers(limits: Limits, w: World, events: seq<Event>): set<(string, GeoHit, int)>
    decreases |events|
  {
    if events == [] then {}
    else
      (if events[0].Answered? then {(limits.normalize(events[0].query), events[0].hit, w.clock)} else {})
      + Answers(limits, Apply(limits, w, events[0]), events[1..])
  }

  /** Everything held or pending comes from the given answers. */
  ghost predicate FromProvider(limits: Limits, w: World, answers: set<(string, GeoHit, int)>) {
    && (forall k | k in w.hits :: k in w.answered && (k, w.hits[k].hit, w.answered[k]) in answers)
    && (forall c | c in w.pending ::
          (limits.normalize(w.pending[c].query), w.pending[c].hit, w.pending[c].at) in answers)
  }

  lemma {:induction false} HeldComesFromProvider(
      limits: Limits, w: World, events: seq<Event>, answers: set<(string, GeoHit, int)>)
    requires FromProvider(limits, w, answers)
    ensures FromProvider(limits, Run(limits, w, events), answers + Answers(limits, w, events))
    decreases |events|
  {
    if events != [] {
      var e := events[0];
      var w1 := Apply(limits, w, e);
      var now := if e.Answered? then {(limits.normalize(e.query), e.hit, w.clock)} else {};
      assert FromProvider(limits, w1, answers + now);
      HeldComesFromProvider(limits, w1, events[1..], answers + now);
      assert answers + Answers(limits, w, events) == answers + now + Answers(limits, w1, events[1..]);
    } else {
      assert answers + Answers(limits, w, events) == answers;
    }
  }

  /** A hit is what the provider answered to a query of the same normal form, and was
      remembered less than the TTL ago. */
  lemma HitsAreRecentAnswers(limits: Limits, clock: int, events: seq<Event>, query: string)
    ensures
      var w := Run(limits, Initial(clock), events);
      var key := limits.normalize(query);
      Peek(limits, w, query).Some? ==>
        && key in w.hits && key in w.answered
        && (key, Peek(limits, w, query).value, w.answered[key]) in Answers(limits, Initial(clock), events)
        && w.answered[key] <= w.hits[key].at <= w.clock < w.hits[key].at + limits.ttl
  {
    RunKeepsInv(limits, Initial(clock), events);
    HeldComesFromProvider(limits, Initial(clock), events, {});
    assert {} + Answers(limits, Initial(clock), events) == Answers(limits, Initial(clock), events);
  }

  /** The TTL counts from the moment of remembering.  A live entry is never served at or
      beyond the TTL after the provider answered if and only if it was remembered at the
      very moment of the answer. */
  lemma FreshFromTheAnswerIff(limits: Limits, w: World, query: string)
    requires Inv(limits, w) && Peek(limits, w, query).Some?
    ensures
      var key := limits.normalize(query);
      w.hits[key].at == w.answered[key] <==>
        forall wait: nat :: Peek(limits, Apply(limits, w, Tick(wait)), query).Some? ==>
          w.clock + wait - w.answered[key] < limits.ttl
  {
    var key := limits.normalize(query);
    if w.hits[key].at != w.answered[key] {
      var wait: nat := w.hits[key].at + limits.ttl - 1 - w.clock;
      assert Peek(limits, Apply(limits, w, Tick(wait)), query).Some?;
    }
  }

  /** Both sides occur: an answer that waits before it is remembered is served at the TTL and
      beyond. */
  lemma LateAnswersAreServedTooLong(limits: Limits, clock: int, query: string, hit: GeoHit, wait: nat)
    requires limits.capacity > 0 && limits.ttl > 0 && wait > 0
    ensures
      var late := Run(limits, Initial(clock), [Answered(0, query, hit), Tick(wait), Remember(0)]);
      var key := limits.normalize(query);
      var w := Apply(limits, late, Tick(limits.ttl - 1));
      && key in late.hits && key in late.answered && late.hits[key].at == late.answered[key] + wait
      && Peek(limits, w, query) == Some(hit) && w.clock - w.answered[key] >= limits.ttl
  {
    var answered, tick, remember := Answered(0, query, hit), Tick(wait), Remember(0);
    var w1 := Apply(limits, Initial(clock), answered);
    var w2 := Apply(limits, w1, tick);
    assert [answered, tick, remember][1..] == [tick, remember];
    assert [tick, remember][1..] == [remember] && [remember][1..] == [];
    assert Run(limits, w2, [remember]) == Apply(limits, w2, remember);
    assert Run(limits, w1, [tick, remember]) == Run(limits, w2, [remember]);
    assert Run(limits, Initial(clock), [answered, tick, remember]) == Run(limits, w1, [tick, remember]);
    assert w2.pending[0] == Answer(query, hit, clock);
  }

  // ---------------------------------------------------------------------------
  // The cache itself
  // ---------------------------------------------------------------------------

  /** An event of some other call. */
  predicate Foreign(e: Event, call: CallId) {
    e.Tick? || e.call != call
  }

  lemma {:induction false} RunAppend(limits: Limits, w: World, first: seq<Event>, second: seq<Event>)
    ensures Run(limits, w, first + second) == Run(limits, Run(limits, w, first), second)
    decreases |first|
  {
    if first == [] {
      assert first + second == second;
    } else {
      assert (first + second)[1..] == first[1..] + second;
      RunAppend(limits, Apply(limits, w, first[0]), first[1..], second);
    }
  }

  lemma RunSnoc(limits: Limits, w: World, events: seq<Event>, e: Event)
    ensures Run(limits, w, events + [e]) == Apply(limits, Run(limits, w, events), e)
  {
    RunAppend(limits, w, events, [e]);
    assert [e][1..] == [];
  }

  lemma {:induction false} ForeignRunKeepsPending(limits: Limits, w: World, events: seq<Event>, call: CallId)
    requires forall e | e in events :: Foreign(e, call)
    requires call in w.pending
    ensures call in Run(limits, w, events).pending && Run(limits, w, events).pending[call] == w.pending[call]
    decreases |events|
  {
    if events != [] {
      assert Foreign(events[0], call);
      ForeignRunKeepsPending(limits, Apply(limits, w, events[0]), events[1..], call);
    }
  }

  class CachingGeocoder {
    const limits: Limits
    var clock: int
    var hits: map<string, Entry>
    /** Keys in insertion order. */
    var order: seq<string>
    /** Provider answers on their way into the cache. */
    var pending: map<CallId, Answer>
    ghost var log: seq<string>
    ghost var answered: map<string, int>
    ghost var start: int
    ghost var past: seq<Event>

    ghost function View(): World
      reads this
    {
      World(clock, hits, order, pending, log, answered)
    }

    ghost predicate Valid()
      reads this
    {
      View() == Run(limits, Initial(start), past)
    }

    lemma Reached()
      requires Valid()
      ensures Inv(limits, View())
    {
      RunKeepsInv(limits, Initial(start), past);
    }

    constructor (limits: Limits, clock: int)
      ensures Valid() && past == [] && this.limits == limits
    {
      this.limits, this.clock := limits, clock;
      hits, order, pending, log, answered := map[], [], map[], [], map[];
      start, past := clock, [];
    }

    ghost method Record(e: Event, before: World)
      requires before == Run(limits, Initial(start), past) && View() == Apply(limits, before, e)
      modifies this`past
      ensures Valid() && past == old(past) + [e]
    {
      RunSnoc(limits, Initial(start), past, e);
      past := past + [e];
    }

    /** The cached resolution, if one is live; nothing is recorded. */
    method Lookup(query: string) returns (r: Option<GeoHit>)
      requires Valid()
      ensures r == Peek(limits, View(), query)
    {
      var key := limits.normalize(query);
      if key !in hits {
        return None;
      }
      var entry := hits[key];
      r := if clock - entry.at < limits.ttl then Some(entry.hit) else None;
    }

    /** Drop the oldest keys until the bound holds, and no more: the queue keeps its end, up to
        the capacity, and the map what is not dropped. */
    method Evict()
      modifies this`hits, this`order
      ensures order == old(order)[Excess(old(order), limits.capacity)..]
      ensures hits == Without(old(hits), old(order)[..Excess(old(order), limits.capacity)])
      ensures |order| == if |old(order)| < limits.capacity then |old(order)| else limits.capacity
      ensures |order| <= |old(order)| && order == old(order)[|old(order)| - |order|..]
      ensures Dropped(old(hits), hits, old(order)[..|old(order)| - |order|])
    {
      ghost var queue, entries, n := order, hits, 0;
      while |order| > limits.capacity
        invariant n <= Excess(queue, limits.capacity)
        invariant order == queue[n..]
        invariant hits == Without(entries, queue[..n])
        decreases |order|
      {
        var oldest := order[0];
        order := order[1..];
        hits := hits - {oldest};
        assert queue[..n + 1] == queue[..n] + [oldest];
        n := n + 1;
      }
      WithoutDrops(entries, queue[..n]);
    }

    /** Insert or refresh, then evict. */
    method RememberAnswer(call: CallId)
      requires Valid() && call in pending
      modifies this
      ensures Valid() && past == old(past) + [Remember(call)] && start == old(start)
      ensures View() == Apply(limits, old(View()), Remember(call))
    {
      ghost var before := View();
      var answer := pending[call];
      var key := limits.normalize(answer.query);
      pending := pending - {call};
      if key !in hits {
        order := order + [key];
        log := log + [key];
      }
      hits := hits[key := Entry(answer.hit, clock)];
      answered := answered[key := answer.at];
      Evict();
      Record(Remember(call), before);
    }

    method ReceiveAnswer(call: CallId, query: string, hit: GeoHit)
      requires Valid()
      modifies this
      ensures Valid() && past == old(past) + [Answered(call, query, hit)] && start == old(start)
      ensures call in pending && pending[call] == Answer(query, hit, clock)
      ensures clock == old(clock) && hits == old(hits) && order == old(order)
    {
      ghost var before := View();
      pending := pending[call := Answer(query, hit, clock)];
      Record(Answered(call, query, hit), before);
    }

    /** Other searches use the cache, and time passes. */
    method Others(events: seq<Event>, ghost call: CallId)
      requires Valid()
      requires forall e | e in events :: Foreign(e, call)
      modifies this
      ensures Valid() && past == old(past) + events && start == old(start)
      ensures events == [] ==> View() == old(View())
      ensures call in old(pending) ==> call in pending && pending[call] == old(pending[call])
    {
      var w := Run(limits, World(clock, hits, order, pending, [], map[]), events);
      SameRun(limits, World(clock, hits, order, pending, [], map[]), View(), events);
      RunAppend(limits, Initial(start), past, events);
      if call in pending { ForeignRunKeepsPending(limits, View(), events, call); }
      ghost var after := Run(limits, View(), events);
      log, answered := after.log, after.answered;
      clock, hits, order, pending := w.clock, w.hits, w.order, w.pending;
      past := past + events;
    }

    /** Resolve a query: from the cache if it can answer, otherwise from the provider,
        whose answer is remembered.  `inner` is what the provider says. */
    method Geocode(call: CallId, query: string, inner: Result<Option<GeoHit>, GeocodeError>, others: nat -> seq<Event>)
      returns (r: Result<Option<GeoHit>, GeocodeError>)
      requires Valid()
      requires forall i: nat, e | e in others(i) :: Foreign(e, call)
      modifies this
      ensures Valid() && start == old(start) && old(past) <= past
      ensures r == if Peek(limits, old(View()), query).Some? then Success(Peek(limits, old(View()), query)) else inner
      ensures Peek(limits, old(View()), query).Some? ==> View() == old(View())
      ensures Quiet(others) && r.Success? && r.value.Some? && limits.ttl > 0 && limits.capacity > 0 ==>
        Peek(limits, View(), query) == r.value
      ensures Quiet(others) && (r.Failure? || r.value.None?) ==> View() == old(View())
    {
      var cached := Lookup(query);
      if cached.Some? {
        return Success(cached);
      }
      Others(others(0), call);
      r := inner;
      if inner.Success? && inner.value.Some? {
        ReceiveAnswer(call, query, inner.value.value);
        Others(others(1), call);
        Reached();
        NewestIsKept(limits, View(), call);
        RememberAnswer(call);
      }
    }
  }

  /** What happens to the cache does not depend on the bookkeeping. */
  lemma {:induction false} SameRun(limits: Limits, w: World, w': World, events: seq<Event>)
    requires w' == w.(log := w'.log, answered := w'.answered)
    ensures
      var r, r' := Run(limits, w, events), Run(limits, w', events);
      r' == r.(log := r'.log, answered := r'.answered)
    decreases |events|
  {
    if events != [] {
      SameRun(limits, Apply(limits, w, events[0]), Apply(limits, w', events[0]), events[1..]);
    }
  }

  /** What was just remembered is not what is evicted, unless the capacity is zero. */
  lemma NewestIsKept(limits: Limits, w: World, call: CallId)
    requires Inv(limits, w) && call in w.pending
    ensures
      var key := limits.normalize(w.pending[call].query);
      var w' := Apply(limits, w, Remember(call));
      limits.capacity > 0 ==> key in w'.hits && w'.hits[key] == Entry(w.pending[call].hit, w.clock)
  {
  }
}
