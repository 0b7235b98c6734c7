/** The tenant configuration cache: lookups, shared fetches and the sweeper, interleaved (tenantcache cache.go). */
module TenantCache {
  import opened Common

  type Config = string

  datatype Entry = Entry(cfg: Config, expiresAt: int)

  type Data = map<string, Entry>

  /** What Get finds for a tenant at an instant. */
  function Live(data: Data, slug: string, now: int): Option<Config> {
    if slug in data && now < data[slug].expiresAt then Some(data[slug].cfg) else None
  }

  /** The table after a sweep that read the clock at `now`. */
  function Swept(data: Data, now: int): Data {
    map slug | slug in data && !(now > data[slug].expiresAt) :: data[slug]
  }

  /** The table and what Get, a finished fetch and the sweeper do to it under the lock. */
  class Cache {
    const ttl: int
    var data: Data

    constructor (ttl: int)
      ensures this.ttl == ttl && data == map[]
    {
      this.ttl := ttl;
      data := map[];
    }

    method Lookup(slug: string, now: int) returns (r: Option<Config>)
      ensures r == Live(data, slug, now)
      ensures r == if slug in data && now < data[slug].expiresAt then Some(data[slug].cfg) else None
    {
      if slug in data && now < data[slug].expiresAt {
        return Some(data[slug].cfg);
      }
      return None;
    }

    method StoreFetched(slug: string, fetched: Option<Config>, now: int)
      modifies this
      ensures data == if fetched.Some? then old(data)[slug := Entry(fetched.value, now + ttl)] else old(data)
    {
      if fetched.None? {
        return;
      }
      data := data[slug := Entry(fetched.value, now + ttl)];
    }

    /** evictExpired: entries strictly past their expiry go. */
    method EvictExpired(now: int)
      modifies this
      ensures data == Swept(old(data), now)
      ensures forall slug :: slug in data <==> slug in old(data) && now <= old(data)[slug].expiresAt
      ensures forall slug | slug in data :: data[slug] == old(data)[slug]
    {
      var left := data.Keys;
      while left != {}
        invariant left <= old(data).Keys && left <= data.Keys
        invariant forall slug :: slug in data <==>
                    slug in old(data) && (slug in left || !(now > old(data)[slug].expiresAt))
        invariant forall slug | slug in data :: data[slug] == old(data)[slug]
        decreases left
      {
        var slug :| slug in left;
        left := left - {slug};
        if now > data[slug].expiresAt {
          data := data - {slug};
        }
      }
    }
  }

  // ---- Interleavings ----

  /** A finished Get: `at` is when it found or received its answer. */
  datatype Return = Return(proc: nat, slug: string, answer: Option<Config>, at: int, hit: bool)

  /** A finished successful fetch. */
  datatype Stored = Stored(slug: string, cfg: Config, at: int)

  datatype Sys = Sys(
    data: Data, clock: int,
    missed: map<nat, string>,             // Gets that found nothing and have not joined a fetch yet
    flights: map<string, seq<nat>>,       // fetches under way and the Gets waiting for them
    fetched: map<string, Option<Config>>, // of these, the ones that have their result, and have stored it, but not answered
    sweepClock: Option<int>,              // the sweeper has read the clock and waits for the lock
    answers: seq<Return>, stores: seq<Stored>)

  datatype Step =
    | Tick(to: int)
    | Get(p: nat, slug: string)
    | Join(p: nat)
    | Fetched(slug: string, result: Option<Config>)
    | Land(slug: string)
    | SweepRead
    | SweepApply

  predicate Enabled(s: Sys, step: Step) {
    match step
    case Tick(to) => s.clock <= to
    case Get(p, slug) => p !in s.missed
    case Join(p) => p in s.missed
    case Fetched(slug, result) => slug in s.flights && slug !in s.fetched
    case Land(slug) => slug in s.flights && slug in s.fetched
    case SweepRead => s.sweepClock.None?
    case SweepApply => s.sweepClock.Some?
  }

  function AnswerAll(waiting: seq<nat>, slug: string, result: Option<Config>, at: int): seq<Return> {
    seq(|waiting|, i requires 0 <= i < |waiting| => Return(waiting[i], slug, result, at, false))
  }

  /** One step; with `sweeping` off, the sweeper runs but deletes nothing. */
  function Exec(ttl: int, sweeping: bool, s: Sys, step: Step): Sys
    requires Enabled(s, step)
  {
    match step
    case Tick(to) => s.(clock := to)
    case Get(p, slug) =>
      var found := Live(s.data, slug, s.clock);
      if found.Some? then s.(answers := s.answers + [Return(p, slug, found, s.clock, true)])
      else s.(missed := s.missed[p := slug])
    case Join(p) =>
      var slug := s.missed[p];
      var waiting := if slug in s.flights then s.flights[slug] else [];
      s.(missed := s.missed - {p}, flights := s.flights[slug := waiting + [p]])
    case Fetched(slug, result) =>
      s.(data := if result.Some? then s.data[slug := Entry(result.value, s.clock + ttl)] else s.data,
         fetched := s.fetched[slug := result],
         stores := if result.Some? then s.stores + [Stored(slug, result.value, s.clock)] else s.stores)
    case Land(slug) =>
      s.(flights := s.flights - {slug}, fetched := s.fetched - {slug},
         answers := s.answers + AnswerAll(s.flights[slug], slug, s.fetched[slug], s.clock))
    case SweepRead => s.(sweepClock := Some(s.clock))
    case SweepApply =>
      s.(data := if sweeping then Swept(s.data, s.sweepClock.value) else s.data, sweepClock := None)
  }

  const START := Sys(map[], 0, map[], map[], map[], None, [], [])

  ghost predicate Run(ttl: int, sweeping: bool, states: seq<Sys>, steps: seq<Step>) {
    && |states| == |steps| + 1 && states[0] == START
    && forall i | 0 <= i < |steps| ::
         Enabled(states[i], steps[i]) && states[i + 1] == Exec(ttl, sweeping, states[i], steps[i])
  }

  // ---- Freshness ----

  ghost predicate Backed(ttl: int, s: Sys, slug: string, e: Entry) {
    exists w :: w in s.stores && w.slug == slug && w.cfg == e.cfg && w.at + ttl == e.expiresAt && w.at <= s.clock
  }

  /** The configuration was fetched for the tenant by the instant. */
  ghost predicate StoredBy(s: Sys, slug: string, answer: Option<Config>, at: int) {
    exists w :: w in s.stores && w.slug == slug && Some(w.cfg) == answer && w.at <= at
  }

  ghost predicate FreshReturn(ttl: int, s: Sys, r: Return) {
    && (r.hit ==> r.answer.Some?
                  && exists w :: w in s.stores && w.slug == r.slug && Some(w.cfg) == r.answer && w.at <= r.at < w.at + ttl)
    && (r.answer.Some? ==> StoredBy(s, r.slug, r.answer, r.at))
  }

  ghost predicate Inv(ttl: int, s: Sys) {
    && (forall slug | slug in s.data :: Backed(ttl, s, slug, s.data[slug]))
    && (forall slug | slug in s.fetched && s.fetched[slug].Some? :: StoredBy(s, slug, s.fetched[slug], s.clock))
    && (forall r | r in s.answers :: FreshReturn(ttl, s, r))
  }

  lemma StoresGrow(ttl: int, s: Sys, s': Sys)
    requires Inv(ttl, s) && s.stores <= s'.stores && s.clock <= s'.clock
    ensures forall slug, e | Backed(ttl, s, slug, e) :: Backed(ttl, s', slug, e)
    ensures forall slug, answer, at, at' | StoredBy(s, slug, answer, at) && at <= at' :: StoredBy(s', slug, answer, at')
    ensures forall r | FreshReturn(ttl, s, r) :: FreshReturn(ttl, s', r)
  {
    assert forall w | w in s.stores :: w in s'.stores;
    forall slug, answer, at, at' | StoredBy(s, slug, answer, at) && at <= at' ensures StoredBy(s', slug, answer, at') {
      var w :| w in s.stores && w.slug == slug && Some(w.cfg) == answer && w.at <= at;
      assert w in s'.stores;
    }
    forall r | FreshReturn(ttl, s, r) ensures FreshReturn(ttl, s', r) {
      if r.hit {
        var w :| w in s.stores && w.slug == r.slug && Some(w.cfg) == r.answer && w.at <= r.at < w.at + ttl;
        assert w in s'.stores;
      }
    }
  }

  lemma HitKeepsInv(ttl: int, sweeping: bool, s: Sys, p: nat, slug: string)
    requires Inv(ttl, s) && Enabled(s, Get(p, slug)) && Live(s.data, slug, s.clock).Some?
    ensures Inv(ttl, Exec(ttl, sweeping, s, Get(p, slug)))
  {
    var s' := Exec(ttl, sweeping, s, Get(p, slug));
    var r := s'.answers[|s.answers|];
    StoresGrow(ttl, s, s');
    var w :| w in s.stores && w.slug == slug && w.cfg == s.data[slug].cfg
             && w.at + ttl == s.data[slug].expiresAt && w.at <= s.clock;
    assert StoredBy(s', r.slug, r.answer, r.at);
    assert FreshReturn(ttl, s', r);
  }

  lemma FetchedKeepsInv(ttl: int, sweeping: bool, s: Sys, slug: string, result: Option<Config>)
    requires Inv(ttl, s) && Enabled(s, Fetched(slug, result))
    ensures Inv(ttl, Exec(ttl, sweeping, s, Fetched(slug, result)))
  {
    var s' := Exec(ttl, sweeping, s, Fetched(slug, result));
    StoresGrow(ttl, s, s');
    if result.Some? {
      var w := Stored(slug, result.value, s.clock);
      assert w in s'.stores;
      assert Backed(ttl, s', slug, s'.data[slug]) && StoredBy(s', slug, result, s'.clock);
    }
  }

  lemma LandKeepsInv(ttl: int, sweeping: bool, s: Sys, slug: string)
    requires Inv(ttl, s) && Enabled(s, Land(slug))
    ensures Inv(ttl, Exec(ttl, sweeping, s, Land(slug)))
  {
    var s' := Exec(ttl, sweeping, s, Land(slug));
    StoresGrow(ttl, s, s');
    forall r | r in s'.answers ensures FreshReturn(ttl, s', r) {
      if r !in s.answers {
        assert r in AnswerAll(s.flights[slug], slug, s.fetched[slug], s.clock);
      }
    }
  }

  lemma StepKeepsInv(ttl: int, sweeping: bool, s: Sys, step: Step)
    requires Inv(ttl, s) && Enabled(s, step)
    ensures Inv(ttl, Exec(ttl, sweeping, s, step))
  {
    if step.Get? && Live(s.data, step.slug, s.clock).Some? {
      HitKeepsInv(ttl, sweeping, s, step.p, step.slug);
    } else if step.Fetched? {
      FetchedKeepsInv(ttl, sweeping, s, step.slug, step.result);
    } else if step.Land? {
      LandKeepsInv(ttl, sweeping, s, step.slug);
    } else {
      StoresGrow(ttl, s, Exec(ttl, sweeping, s, step));
    }
  }

  lemma {:induction false} RunInv(ttl: int, sweeping: bool, states: seq<Sys>, steps: seq<Step>, i: nat)
    requires Run(ttl, sweeping, states, steps) && i < |states|
    ensures Inv(ttl, states[i])
  {
    if i > 0 {
      RunInv(ttl, sweeping, states, steps, i - 1);
      StepKeepsInv(ttl, sweeping, states[i - 1], steps[i - 1]);
    }
  }

  /** Over every run, a hit returns a configuration fetched for that tenant less than ttl earlier. */
  lemma HitsAreFresh(ttl: int, states: seq<Sys>, steps: seq<Step>, i: nat, r: Return)
    requires Run(ttl, true, states, steps) && i < |states| && r in states[i].answers && r.hit
    ensures exists w :: w in states[i].stores && w.slug == r.slug && r.answer == Some(w.cfg) && w.at <= r.at < w.at + ttl
  {
    RunInv(ttl, true, states, steps, i);
  }

  /** Over every run, whatever a Get returns, from the cache or from a fetch it waited for or joined late, was fetched for that tenant. */
  lemma AnswersAreFetched(ttl: int, states: seq<Sys>, steps: seq<Step>, i: nat, r: Return)
    requires Run(ttl, true, states, steps) && i < |states| && r in states[i].answers && r.answer.Some?
    ensures StoredBy(states[i], r.slug, r.answer, r.at)
  {
    RunInv(ttl, true, states, steps, i);
  }

  /** The sweeper's reading of the clock is never ahead of it. */
  predicate SweepsPast(s: Sys) { s.sweepClock.Some? ==> s.sweepClock.value <= s.clock }

  lemma StepAdvances(ttl: int, sweeping: bool, s: Sys, step: Step)
    requires Enabled(s, step) && SweepsPast(s)
    ensures s.clock <= Exec(ttl, sweeping, s, step).clock && SweepsPast(Exec(ttl, sweeping, s, step))
  {
  }

  lemma {:induction false} ClocksAdvance(ttl: int, sweeping: bool, states: seq<Sys>, steps: seq<Step>, i: nat)
    requires Run(ttl, sweeping, states, steps) && i < |states|
    ensures SweepsPast(states[i]) && (i > 0 ==> states[i - 1].clock <= states[i].clock)
  {
    if i > 0 {
      ClocksAdvance(ttl, sweeping, states, steps, i - 1);
      StepAdvances(ttl, sweeping, states[i - 1], steps[i - 1]);
    }
  }

  /** No configuration of the tenant is stored by steps k + 1 to i - 1. */
  ghost predicate NoneStored(steps: seq<Step>, slug: string, k: nat, i: nat)
    requires i <= |steps|
  {
    forall m | k < m < i && steps[m].Fetched? && steps[m].slug == slug :: steps[m].result.None?
  }

  lemma StepKeepsEntry(ttl: int, s: Sys, step: Step, slug: string)
    requires Enabled(s, step) && SweepsPast(s) && slug in s.data && s.clock <= s.data[slug].expiresAt
    requires step.Fetched? && step.slug == slug ==> step.result.None?
    ensures var s' := Exec(ttl, true, s, step); slug in s'.data && s'.data[slug] == s.data[slug]
  {
  }

  lemma {:induction false} KeptUntilExpiry(ttl: int, states: seq<Sys>, steps: seq<Step>, k: nat, i: nat, slug: string, cfg: Config)
    requires Run(ttl, true, states, steps) && k < i <= |steps| && steps[k] == Fetched(slug, Some(cfg))
    requires NoneStored(steps, slug, k, i) && states[i].clock <= states[k].clock + ttl
    ensures slug in states[i].data && states[i].data[slug] == Entry(cfg, states[k].clock + ttl)
    decreases i
  {
    ClocksAdvance(ttl, true, states, steps, i);
    ClocksAdvance(ttl, true, states, steps, i - 1);
    if i > k + 1 {
      KeptUntilExpiry(ttl, states, steps, k, i - 1, slug, cfg);
      StepKeepsEntry(ttl, states[i - 1], steps[i - 1], slug);
    }
  }

  /** A stored configuration answers every Get of its tenant for ttl, sweeps or not, unless another one is stored. */
  lemma HitsForTtl(ttl: int, states: seq<Sys>, steps: seq<Step>, k: nat, i: nat, p: nat, slug: string, cfg: Config)
    requires Run(ttl, true, states, steps) && k < i < |steps|
    requires steps[k] == Fetched(slug, Some(cfg)) && steps[i] == Get(p, slug) && NoneStored(steps, slug, k, i)
    requires states[i].clock < states[k].clock + ttl
    ensures states[i + 1].answers == states[i].answers + [Return(p, slug, Some(cfg), states[i].clock, true)]
  {
    KeptUntilExpiry(ttl, states, steps, k, i, slug, cfg);
  }

  /** The Get of p still waits to join a fetch of the tenant, or has joined one. */
  predicate Pending(s: Sys, p: nat, slug: string) {
    (p in s.missed && s.missed[p] == slug) || (slug in s.flights && p in s.flights[slug])
  }

  /** Step m ends the fetch that p waited for, and p is answered with what was fetched. */
  ghost predicate AnsweredBy(states: seq<Sys>, steps: seq<Step>, p: nat, slug: string, m: nat)
    requires |states| == |steps| + 1
  {
    && m < |steps| && steps[m] == Land(slug) && slug in states[m].fetched && |states[m].answers| <= |states[m + 1].answers|
    && Return(p, slug, states[m].fetched[slug], states[m].clock, false) in states[m + 1].answers[|states[m].answers|..]
  }

  lemma LandAnswers(ttl: int, s: Sys, slug: string, p: nat)
    requires Enabled(s, Land(slug)) && p in s.flights[slug]
    ensures var s' := Exec(ttl, true, s, Land(slug));
            && |s.answers| <= |s'.answers|
            && Return(p, slug, s.fetched[slug], s.clock, false) in s'.answers[|s.answers|..]
  {
    var s' := Exec(ttl, true, s, Land(slug));
    var i :| 0 <= i < |s.flights[slug]| && s.flights[slug][i] == p;
    assert s'.answers[|s.answers|..][i] == Return(p, slug, s.fetched[slug], s.clock, false);
  }

  lemma MissIsPending(ttl: int, s: Sys, p: nat, slug: string)
    requires Enabled(s, Get(p, slug)) && Exec(ttl, true, s, Get(p, slug)).answers == s.answers
    ensures Pending(Exec(ttl, true, s, Get(p, slug)), p, slug)
  {
    assert Live(s.data, slug, s.clock).None?;
  }

  lemma StepKeepsPending(ttl: int, s: Sys, step: Step, p: nat, slug: string)
    requires Enabled(s, step) && Pending(s, p, slug)
    ensures Pending(Exec(ttl, true, s, step), p, slug) || (step == Land(slug) && p in s.flights[slug])
  {
  }

  /** No Get is forgotten: one that found nothing is pending until a fetch of its tenant ends and answers it. */
  lemma {:induction false} NoGetForgotten(ttl: int, states: seq<Sys>, steps: seq<Step>, i: nat, j: nat, p: nat, slug: string)
    requires Run(ttl, true, states, steps) && i < j <= |steps| && steps[i] == Get(p, slug)
    requires states[i + 1].answers == states[i].answers
    ensures Pending(states[j], p, slug) || exists m: nat :: i < m < j && AnsweredBy(states, steps, p, slug, m)
    decreases j
  {
    if j == i + 1 {
      MissIsPending(ttl, states[i], p, slug);
    } else {
      NoGetForgotten(ttl, states, steps, i, j - 1, p, slug);
      if Pending(states[j - 1], p, slug) {
        StepAnswers(ttl, states, steps, j - 1, p, slug);
      }
    }
  }

  lemma StepAnswers(ttl: int, states: seq<Sys>, steps: seq<Step>, m: nat, p: nat, slug: string)
    requires Run(ttl, true, states, steps) && m < |steps| && Pending(states[m], p, slug)
    ensures Pending(states[m + 1], p, slug) || AnsweredBy(states, steps, p, slug, m)
  {
    StepKeepsPending(ttl, states[m], steps[m], p, slug);
    if steps[m] == Land(slug) && p in states[m].flights[slug] {
      LandAnswers(ttl, states[m], slug, p);
    }
  }

  // ---- The sweeper is invisible ----

  /** The two systems differ only in entries that no lookup from now on could return. */
  ghost predicate Twins(s: Sys, t: Sys) {
    && s == t.(data := s.data)
    && (s.sweepClock.Some? ==> s.sweepClock.value <= s.clock)
    && forall slug, now | s.clock <= now :: Live(s.data, slug, now) == Live(t.data, slug, now)
  }

  lemma SweepKeepsLive(data: Data, sweepClock: int, slug: string, now: int)
    requires sweepClock <= now
    ensures Live(Swept(data, sweepClock), slug, now) == Live(data, slug, now)
  {
  }

  lemma TwinsStep(ttl: int, s: Sys, t: Sys, step: Step)
    requires Twins(s, t) && Enabled(s, step)
    ensures Enabled(t, step) && Twins(Exec(ttl, true, s, step), Exec(ttl, false, t, step))
  {
    var s', t' := Exec(ttl, true, s, step), Exec(ttl, false, t, step);
    if step.Get? {
      assert Live(s.data, step.slug, s.clock) == Live(t.data, step.slug, s.clock);
    }
    forall slug, now | s'.clock <= now ensures Live(s'.data, slug, now) == Live(t'.data, slug, now) {
      assert Live(s.data, slug, now) == Live(t.data, slug, now);
      if step.SweepApply? {
        SweepKeepsLive(s.data, s.sweepClock.value, slug, now);
      }
    }
  }

  /** The run that makes the same steps without deleting anything. */
  lemma {:induction false} WithoutSweeping(ttl: int, states: seq<Sys>, steps: seq<Step>) returns (twins: seq<Sys>)
    requires Run(ttl, true, states, steps)
    ensures Run(ttl, false, twins, steps)
    ensures forall i | 0 <= i < |states| :: Twins(states[i], twins[i])
    decreases |steps|
  {
    if steps == [] {
      twins := states;
    } else {
      var n := |steps| - 1;
      twins := WithoutSweeping(ttl, states[..n + 1], steps[..n]);
      TwinsStep(ttl, states[n], twins[n], steps[n]);
      twins := twins + [Exec(ttl, false, twins[n], steps[n])];
    }
  }

  /** Eviction never changes what any Get returns: the same steps without it give the same answers, hits and fetches. */
  lemma EvictionInvisible(ttl: int, states: seq<Sys>, steps: seq<Step>) returns (twins: seq<Sys>)
    requires Run(ttl, true, states, steps)
    ensures Run(ttl, false, twins, steps)
    ensures twins[|steps|].answers == states[|steps|].answers && twins[|steps|].stores == states[|steps|].stores
    ensures twins[|steps|].missed == states[|steps|].missed && twins[|steps|].flights == states[|steps|].flights
    ensures twins[|steps|].fetched == states[|steps|].fetched
  {
    twins := WithoutSweeping(ttl, states, steps);
    assert Twins(states[|steps|], twins[|steps|]);
  }
}
