/** The sliding-window failure detector and the full-history detector it stands for. */
module Detection {
  import opened Bytes
  import opened Rules
  import opened Store

  /** A jail's limits; which addresses a message incriminates is decided outside. */
  datatype Jail = Jail(name: string, maxRetries: nat, findTime: int, banTime: int)

  datatype Key = Key(jail: string, ip: seq<Byte>)

  /** One journal message: for each jail the address it matches there, and the time. */
  datatype Event = Event(hits: seq<Option<seq<Byte>>>, now: int)

  type Windows = map<Key, seq<int>>

  /** The ban of one address by one jail, for whole seconds. */
  function BanFor(jail: Jail, ip: seq<Byte>, now: int): Ban {
    Ban(Net(ip, 8 * |ip|), "ssh:" + jail.name, "failed authentication", 0, (now + jail.banTime) / SECOND)
  }

  const MINUTE: int := 60_000_000_000

  ghost predicate ValidJails(jails: seq<Jail>) {
    && (forall i :: 0 <= i < |jails| ==> jails[i].maxRetries >= 1 && jails[i].findTime > 0)
    && (forall i, j :: 0 <= i < j < |jails| ==> jails[i].name != jails[j].name)
  }

  /** The times at or after a cutoff, in order. */
  function Since(times: seq<int>, cutoff: int): (r: seq<int>)
    ensures |r| <= |times|
  {
    if times == [] then []
    else Since(times[..|times| - 1], cutoff) + if times[|times| - 1] >= cutoff then [times[|times| - 1]] else []
  }

  function Window(w: Windows, k: Key): seq<int> {
    if k in w then w[k] else []
  }

  /** The find time of a jail name; an unknown name has none. */
  function FindTime(jails: seq<Jail>, name: string): int {
    if jails == [] then 0
    else if jails[|jails| - 1].name == name then jails[|jails| - 1].findTime
    else FindTime(jails[..|jails| - 1], name)
  }

  // ---- one event, as the code does it ---------------------------------------------------------

  /** What a key keeps; abstract over the rule that trims its times. */
  type Trim = (Key, seq<int>) -> seq<int>

  /** Trimmed except for the keys still to visit; a key left without times is dropped. */
  function Trimmed(w: Windows, todo: set<Key>, trim: Trim): Windows {
    map k | k in w && (k in todo || trim(k, w[k]) != []) :: if k in todo then w[k] else trim(k, w[k])
  }

  lemma TrimOne(w: Windows, todo: set<Key>, k: Key, trim: Trim)
    requires k in todo && todo <= w.Keys
    ensures var p := Trimmed(w, todo, trim);
      && k in p && p[k] == w[k]
      && Trimmed(w, todo - {k}, trim) == if trim(k, w[k]) == [] then p - {k} else p[k := trim(k, w[k])]
  {
  }

  function Recent(jails: seq<Jail>, now: int): Trim {
    (k: Key, times: seq<int>) => Since(times, now - FindTime(jails, k.jail))
  }

  function Pruned(jails: seq<Jail>, w: Windows, now: int): Windows {
    Trimmed(w, {}, Recent(jails, now))
  }

  /** The window after a failure, and whether it reached the limit. */
  function Count(jail: Jail, w: Windows, ip: seq<Byte>, now: int): seq<int> {
    Since(Window(w, Key(jail.name, ip)), now - jail.findTime) + [now]
  }

  function AfterFailure(jail: Jail, w: Windows, ip: seq<Byte>, now: int): Windows {
    var k := Key(jail.name, ip);
    if |Count(jail, w, ip, now)| < jail.maxRetries then w[k := Count(jail, w, ip, now)] else w - {k}
  }

  /** Windows, and the bans emitted so far. */
  type Progress = (Windows, seq<Ban>)

  /** One jail's part of an event: a failure is counted, or the limit is reached and the key cleared. */
  function Hit(jail: Jail, s: Progress, hit: Option<seq<Byte>>, now: int): Progress {
    if hit.None? then s
    else if |Count(jail, s.0, hit.value, now)| < jail.maxRetries then (AfterFailure(jail, s.0, hit.value, now), s.1)
    else (AfterFailure(jail, s.0, hit.value, now), s.1 + [BanFor(jail, hit.value, now)])
  }

  function Fold<S>(n: nat, s: S, step: (nat, S) -> S): S {
    if n == 0 then s else step(n - 1, Fold(n - 1, s, step))
  }

  function HitStep(jails: seq<Jail>, e: Event): (nat, Progress) -> Progress {
    (i: nat, s: Progress) => if i < |jails| && i < |e.hits| then Hit(jails[i], s, e.hits[i], e.now) else s
  }

  /** All jails, in order. */
  function Observed(jails: seq<Jail>, w: Windows, e: Event): Progress {
    Fold(|jails|, (w, []), HitStep(jails, e))
  }

  datatype Memory = Memory(windows: Windows, nextPrune: Option<int>)

  predicate DueIn(m: Memory, now: int) {
    m.nextPrune.None? || now >= m.nextPrune.value
  }

  /** One event: the fields afterwards, and the bans. */
  function Next(jails: seq<Jail>, m: Memory, e: Event): (Memory, seq<Ban>) {
    var after := Observed(jails, if DueIn(m, e.now) then Pruned(jails, m.windows, e.now) else m.windows, e);
    (Memory(after.0, if DueIn(m, e.now) then Some(e.now + MINUTE) else m.nextPrune), after.1)
  }

  method KeepSince(times: seq<int>, cutoff: int) returns (kept: seq<int>)
    ensures kept == Since(times, cutoff)
  {
    kept := [];
    for i := 0 to |times|
      invariant kept == Since(times[..i], cutoff)
    {
      assert times[..i + 1][..i] == times[..i];
      if times[i] >= cutoff {
        kept := kept + [times[i]];
      }
    }
    assert times[..|times|] == times;
  }

  class Detector {
    const jails: seq<Jail>
    var failures: Windows
    var nextPrune: Option<int>

    constructor (jails: seq<Jail>)
      ensures State() == Memory(map[], None) && this.jails == jails
    {
      this.jails := jails;
      failures, nextPrune := map[], None;
    }

    ghost function State(): Memory
      reads this
    {
      Memory(failures, nextPrune)
    }

    /** Visits every key in some order. */
    method TrimAll(trim: Trim)
      modifies this`failures
      ensures failures == Trimmed(old(failures), {}, trim)
    {
      ghost var was := failures;
      var keys := failures.Keys;
      assert failures == Trimmed(was, keys, trim);
      while keys != {}
        invariant keys <= was.Keys && failures == Trimmed(was, keys, trim)
        decreases |keys|
      {
        var k :| k in keys;
        TrimOne(was, keys, k, trim);
        var kept := trim(k, failures[k]);
        if kept == [] {
          failures := failures - {k};
        } else {
          failures := failures[k := kept];
        }
        keys := keys - {k};
      }
    }

    /** Drops expired times of every key, at most once a minute. */
    method Prune(now: int)
      modifies this
      ensures State() == if DueIn(old(State()), now) then Memory(Pruned(jails, old(failures), now), Some(now + MINUTE)) else old(State())
    {
      if nextPrune.Some? && now < nextPrune.value {
        return;
      }
      TrimAll(Recent(jails, now));
      nextPrune := Some(now + MINUTE);
    }

    method Observe(e: Event) returns (bans: seq<Ban>)
      requires |e.hits| == |jails|
      modifies this
      ensures (State(), bans) == Next(jails, old(State()), e)
    {
      Prune(e.now);
      ghost var start := failures;
      bans := [];
      for i := 0 to |jails|
        invariant (failures, bans) == Fold(i, (start, []), HitStep(jails, e))
        invariant nextPrune == if DueIn(old(State()), e.now) then Some(e.now + MINUTE) else old(nextPrune)
      {
        if e.hits[i].None? {
          continue;
        }
        var jail, ip := jails[i], e.hits[i].value;
        var key := Key(jail.name, ip);
        var kept := KeepSince(if key in failures then failures[key] else [], e.now - jail.findTime);
        var window := kept + [e.now];
        if |window| < jail.maxRetries {
          failures := failures[key := window];
          continue;
        }
        failures := failures - {key};
        bans := bans + [BanFor(jail, ip, e.now)];
      }
    }
  }

  // ---- the full-history detector -------------------------------------------------------------

  /** All failures of a key since its last ban, this one included. */
  function FullHistory(jail: Jail, h: Windows, ip: seq<Byte>, now: int): seq<int> {
    Window(h, Key(jail.name, ip)) + [now]
  }

  /** At least maxRetries failures since the last ban lie within findTime. */
  predicate Reached(jail: Jail, h: Windows, ip: seq<Byte>, now: int) {
    |Since(FullHistory(jail, h, ip, now), now - jail.findTime)| >= jail.maxRetries
  }

  /** A ban starts a key's history anew. */
  function Remember(jail: Jail, h: Windows, ip: seq<Byte>, now: int): Windows {
    var k := Key(jail.name, ip);
    if Reached(jail, h, ip, now) then h - {k} else h[k := FullHistory(jail, h, ip, now)]
  }

  function HistoryHit(jail: Jail, s: Progress, hit: Option<seq<Byte>>, now: int): Progress {
    if hit.None? then s
    else if !Reached(jail, s.0, hit.value, now) then (Remember(jail, s.0, hit.value, now), s.1)
    else (Remember(jail, s.0, hit.value, now), s.1 + [BanFor(jail, hit.value, now)])
  }

  function HistoryStep(jails: seq<Jail>, e: Event): (nat, Progress) -> Progress {
    (i: nat, s: Progress) => if i < |jails| && i < |e.hits| then HistoryHit(jails[i], s, e.hits[i], e.now) else s
  }

  function Recorded(jails: seq<Jail>, h: Windows, e: Event): Progress {
    Fold(|jails|, (h, []), HistoryStep(jails, e))
  }

  // ---- refinement -------------------------------------------------------------------------------

  /** From a cutoff on, the stored window and the full history hold the same times. */
  ghost predicate Agree(a: seq<int>, b: seq<int>, cutoff: int) {
    forall c :: c >= cutoff ==> Since(a, c) == Since(b, c)
  }

  ghost predicate Refines(jails: seq<Jail>, w: Windows, h: Windows, now: int) {
    && (forall i, ip :: 0 <= i < |jails| ==> KeyRefines(jails[i], w, h, ip, now))
    && (forall k :: k in w ==> exists i :: 0 <= i < |jails| && jails[i].name == k.jail)
  }

  ghost predicate KeyRefines(jail: Jail, w: Windows, h: Windows, ip: seq<Byte>, now: int) {
    var k := Key(jail.name, ip);
    Agree(Window(w, k), Window(h, k), now - jail.findTime) && |Window(w, k)| < jail.maxRetries
  }

  lemma {:induction false} SinceSince(times: seq<int>, a: int, b: int)
    requires a <= b
    ensures Since(Since(times, a), b) == Since(times, b)
  {
    if times != [] {
      var n := |times| - 1;
      SinceSince(times[..n], a, b);
      var p := Since(times[..n], a);
      if times[n] >= a {
        assert (p + [times[n]])[..|p|] == p;
      } else {
        assert p + [] == p;
        assert Since(times[..n], b) + [] == Since(times[..n], b);
      }
    }
  }

  lemma SinceSnoc(times: seq<int>, t: int, c: int)
    ensures Since(times + [t], c) == Since(times, c) + if t >= c then [t] else []
  {
    assert (times + [t])[..|times|] == times;
  }

  lemma {:induction false} FindTimeOf(jails: seq<Jail>, i: nat)
    requires ValidJails(jails) && i < |jails|
    ensures FindTime(jails, jails[i].name) == jails[i].findTime
  {
    if i < |jails| - 1 {
      var p := jails[..|jails| - 1];
      assert ValidJails(p) && p[i] == jails[i];
      FindTimeOf(p, i);
    }
  }

  /** Time only moves on. */
  lemma RefinesLater(jails: seq<Jail>, w: Windows, h: Windows, now: int, later: int)
    requires Refines(jails, w, h, now) && now <= later
    ensures Refines(jails, w, h, later)
  {
    forall i, ip | 0 <= i < |jails| ensures KeyRefines(jails[i], w, h, ip, later) {
      assert KeyRefines(jails[i], w, h, ip, now);
    }
  }

  /** Pruning drops only what no later cutoff reaches. */
  lemma PrunedRefines(jails: seq<Jail>, w: Windows, h: Windows, now: int)
    requires ValidJails(jails) && Refines(jails, w, h, now)
    ensures Refines(jails, Pruned(jails, w, now), h, now)
  {
    forall i, ip | 0 <= i < |jails| ensures KeyRefines(jails[i], Pruned(jails, w, now), h, ip, now) {
      assert KeyRefines(jails[i], w, h, ip, now);
      FindTimeOf(jails, i);
      PrunedWindow(jails, w, jails[i], ip, now);
    }
  }

  lemma PrunedWindow(jails: seq<Jail>, w: Windows, jail: Jail, ip: seq<Byte>, now: int)
    requires FindTime(jails, jail.name) == jail.findTime
    ensures var k := Key(jail.name, ip);
      var p := Window(Pruned(jails, w, now), k);
      |p| <= |Window(w, k)| && Agree(p, Window(w, k), now - jail.findTime)
  {
    var k, cutoff := Key(jail.name, ip), now - jail.findTime;
    forall c | c >= cutoff ensures Since(Window(Pruned(jails, w, now), k), c) == Since(Window(w, k), c) {
      if k in w {
        SinceSince(w[k], cutoff, c);
      }
    }
  }

  /** Trimming a window and recording one more failure leaves the later part unchanged. */
  lemma CountedSince(a: seq<int>, b: seq<int>, cutoff: int, now: int, c: int)
    requires Agree(a, b, cutoff) && c >= cutoff
    ensures Since(Since(a, cutoff) + [now], c) == Since(b + [now], c)
  {
    SinceSnoc(Since(a, cutoff), now, c);
    SinceSnoc(b, now, c);
    SinceSince(a, cutoff, c);
  }

  lemma AgreeCounted(a: seq<int>, b: seq<int>, cutoff: int, now: int)
    requires Agree(a, b, cutoff) && now >= cutoff
    ensures Agree(Since(a, cutoff) + [now], b + [now], cutoff)
    ensures Since(a, cutoff) + [now] == Since(b + [now], cutoff)
  {
    forall c | c >= cutoff ensures Since(Since(a, cutoff) + [now], c) == Since(b + [now], c) {
      CountedSince(a, b, cutoff, now, c);
    }
    SinceSnoc(b, now, cutoff);
    assert Since(a, cutoff) == Since(b, cutoff);
  }

  /** The limit is reached on the window exactly when it is reached on the full history. */
  lemma CountsAgree(jail: Jail, w: Windows, h: Windows, ip: seq<Byte>, now: int)
    requires jail.findTime > 0 && KeyRefines(jail, w, h, ip, now)
    ensures |Count(jail, w, ip, now)| >= jail.maxRetries <==> Reached(jail, h, ip, now)
    ensures Agree(Count(jail, w, ip, now), FullHistory(jail, h, ip, now), now - jail.findTime)
  {
    var k, cutoff := Key(jail.name, ip), now - jail.findTime;
    var a, b := Window(w, k), Window(h, k);
    assert Agree(a, b, cutoff);
    AgreeCounted(a, b, cutoff, now);
    assert Count(jail, w, ip, now) == Since(a, cutoff) + [now] && FullHistory(jail, h, ip, now) == b + [now];
  }

  lemma OneFailure(jails: seq<Jail>, n: nat, w: Windows, h: Windows, ip: seq<Byte>, now: int)
    requires ValidJails(jails) && n < |jails| && Refines(jails, w, h, now)
    ensures Refines(jails, AfterFailure(jails[n], w, ip, now), Remember(jails[n], h, ip, now), now)
    ensures |Count(jails[n], w, ip, now)| >= jails[n].maxRetries <==> Reached(jails[n], h, ip, now)
  {
    var jail := jails[n];
    var k := Key(jail.name, ip);
    assert KeyRefines(jail, w, h, ip, now);
    CountsAgree(jail, w, h, ip, now);
    var w2, h2 := AfterFailure(jail, w, ip, now), Remember(jail, h, ip, now);
    forall i, ip2 | 0 <= i < |jails| ensures KeyRefines(jails[i], w2, h2, ip2, now) {
      assert KeyRefines(jails[i], w, h, ip2, now);
      if Key(jails[i].name, ip2) == k {
        assert i == n;
      }
    }
  }

  /** A relation that every step keeps holds after all steps. */
  lemma {:induction false} FoldKeeps<S(!new), T(!new)>(n: nat, s: S, t: T, f: (nat, S) -> S, g: (nat, T) -> T, rel: (S, T) -> bool)
    requires rel(s, t)
    requires forall i: nat, a, b :: i < n && rel(a, b) ==> rel(f(i, a), g(i, b))
    ensures rel(Fold(n, s, f), Fold(n, t, g))
  {
    if n > 0 {
      FoldKeeps(n - 1, s, t, f, g, rel);
    }
  }

  ghost predicate SameProgress(jails: seq<Jail>, s: Progress, t: Progress, now: int) {
    Refines(jails, s.0, t.0, now) && s.1 == t.1
  }

  lemma HitRefines(jails: seq<Jail>, n: nat, s: Progress, t: Progress, hit: Option<seq<Byte>>, now: int)
    requires ValidJails(jails) && n < |jails| && SameProgress(jails, s, t, now)
    ensures SameProgress(jails, Hit(jails[n], s, hit, now), HistoryHit(jails[n], t, hit, now), now)
  {
    if hit.Some? {
      OneFailure(jails, n, s.0, t.0, hit.value, now);
    }
  }

  lemma EventRefines(jails: seq<Jail>, w: Windows, h: Windows, e: Event)
    requires ValidJails(jails) && |e.hits| == |jails| && Refines(jails, w, h, e.now)
    ensures SameProgress(jails, Observed(jails, w, e), Recorded(jails, h, e), e.now)
  {
    var rel := (s: Progress, t: Progress) => SameProgress(jails, s, t, e.now);
    forall i: nat, a: Progress, b: Progress | i < |jails| && rel(a, b)
      ensures rel(HitStep(jails, e)(i, a), HistoryStep(jails, e)(i, b))
    {
      HitRefines(jails, i, a, b, e.hits[i], e.now);
    }
    FoldKeeps(|jails|, (w, []), (h, []), HitStep(jails, e), HistoryStep(jails, e), rel);
  }

  // ---- runs -------------------------------------------------------------------------------------

  ghost predicate WellTimed(jails: seq<Jail>, es: seq<Event>) {
    && (forall i :: 0 <= i < |es| ==> |es[i].hits| == |jails|)
    && (forall i :: 0 < i < |es| ==> es[i - 1].now <= es[i].now)
  }

  /** The detector's fields after a list of events, from the empty detector. */
  function MemoryAfter(jails: seq<Jail>, es: seq<Event>): Memory {
    if es == [] then Memory(map[], None)
    else Next(jails, MemoryAfter(jails, es[..|es| - 1]), es[|es| - 1]).0
  }

  function HistoriesAfter(jails: seq<Jail>, es: seq<Event>): Windows {
    if es == [] then map[]
    else Recorded(jails, HistoriesAfter(jails, es[..|es| - 1]), es[|es| - 1]).0
  }

  /** For every non-decreasing event sequence, the detector emits at its last event exactly the bans
      of the full-history detector, and keeps refining it. */
  lemma {:induction false} DetectorRefinesHistory(jails: seq<Jail>, es: seq<Event>)
    requires ValidJails(jails) && WellTimed(jails, es) && es != []
    ensures var n := |es| - 1;
      && Next(jails, MemoryAfter(jails, es[..n]), es[n]).1 == Recorded(jails, HistoriesAfter(jails, es[..n]), es[n]).1
      && Refines(jails, MemoryAfter(jails, es).windows, HistoriesAfter(jails, es), es[n].now)
  {
    var n := |es| - 1;
    var m, h, e := MemoryAfter(jails, es[..n]), HistoriesAfter(jails, es[..n]), es[n];
    if n > 0 {
      assert WellTimed(jails, es[..n]);
      DetectorRefinesHistory(jails, es[..n]);
      RefinesLater(jails, m.windows, h, es[..n][n - 1].now, e.now);
    } else {
      NothingYet(jails, e.now);
    }
    if DueIn(m, e.now) {
      PrunedRefines(jails, m.windows, h, e.now);
      EventRefines(jails, Pruned(jails, m.windows, e.now), h, e);
    } else {
      EventRefines(jails, m.windows, h, e);
    }
  }

  lemma NothingYet(jails: seq<Jail>, now: int)
    requires ValidJails(jails)
    ensures Refines(jails, map[], map[], now)
  {
  }

  /** No stored window ever reaches its jail's limit. */
  lemma WindowsStayShort(jails: seq<Jail>, es: seq<Event>, i: nat, ip: seq<Byte>)
    requires ValidJails(jails) && WellTimed(jails, es) && i < |jails|
    ensures |Window(MemoryAfter(jails, es).windows, Key(jails[i].name, ip))| < jails[i].maxRetries
  {
    if es != [] {
      DetectorRefinesHistory(jails, es);
      assert KeyRefines(jails[i], MemoryAfter(jails, es).windows, HistoriesAfter(jails, es), ip, es[|es| - 1].now);
    }
  }

  // ---- how much is remembered ------------------------------------------------------------------

  lemma {:induction false} SinceMembers(times: seq<int>, c: int, t: int)
    ensures t in Since(times, c) <==> t in times && t >= c
  {
    if times != [] {
      var n := |times| - 1;
      SinceMembers(times[..n], c, t);
      assert times == times[..n] + [times[n]];
    }
  }

  /** No stored time lies further back than the find time of its jail before p. */
  ghost predicate SinceLast(jails: seq<Jail>, w: Windows, p: int) {
    forall k, t :: k in w && t in w[k] ==> t >= p - FindTime(jails, k.jail)
  }

  lemma PrunedSince(jails: seq<Jail>, w: Windows, now: int)
    ensures SinceLast(jails, Pruned(jails, w, now), now)
  {
    var p := Pruned(jails, w, now);
    forall k, t | k in p && t in p[k] ensures t >= now - FindTime(jails, k.jail) {
      SinceMembers(w[k], now - FindTime(jails, k.jail), t);
    }
  }

  lemma HitSince(jails: seq<Jail>, n: nat, s: Progress, hit: Option<seq<Byte>>, now: int, p: int)
    requires ValidJails(jails) && n < |jails| && SinceLast(jails, s.0, p) && p <= now
    ensures SinceLast(jails, Hit(jails[n], s, hit, now).0, p)
  {
    if hit.Some? {
      FindTimeOf(jails, n);
      var k, after := Key(jails[n].name, hit.value), AfterFailure(jails[n], s.0, hit.value, now);
      forall t | k in after && t in after[k] ensures t >= p - FindTime(jails, k.jail) {
        SinceMembers(Window(s.0, k), now - jails[n].findTime, t);
      }
    }
  }

  lemma {:induction false} FoldSince(jails: seq<Jail>, n: nat, s: Progress, e: Event, p: int)
    requires ValidJails(jails) && n <= |jails| && SinceLast(jails, s.0, p) && p <= e.now
    ensures SinceLast(jails, Fold(n, s, HitStep(jails, e)).0, p)
  {
    if n > 0 {
      FoldSince(jails, n - 1, s, e, p);
      if n - 1 < |e.hits| {
        HitSince(jails, n - 1, Fold(n - 1, s, HitStep(jails, e)), e.hits[n - 1], e.now, p);
      }
    }
  }

  /** The next pruning is less than a minute and a nanosecond ahead, so nothing is remembered for
      longer than the find time and a minute. */
  ghost predicate Bounded(jails: seq<Jail>, m: Memory, now: int) {
    && m.nextPrune.Some? && now < m.nextPrune.value <= now + 60_000_000_000
    && SinceLast(jails, m.windows, m.nextPrune.value - 60_000_000_000)
  }

  lemma {:induction false} MemoryBounded(jails: seq<Jail>, es: seq<Event>)
    requires ValidJails(jails) && WellTimed(jails, es) && es != []
    ensures Bounded(jails, MemoryAfter(jails, es), es[|es| - 1].now)
  {
    var n := |es| - 1;
    var m, e := MemoryAfter(jails, es[..n]), es[n];
    if n > 0 {
      assert WellTimed(jails, es[..n]);
      MemoryBounded(jails, es[..n]);
      assert es[..n][n - 1] == es[n - 1];
    }
    if DueIn(m, e.now) {
      PrunedSince(jails, m.windows, e.now);
      FoldSince(jails, |jails|, (Pruned(jails, m.windows, e.now), []), e, e.now);
    } else {
      FoldSince(jails, |jails|, (m.windows, []), e, m.nextPrune.value - 60_000_000_000);
    }
  }

  /** After every run, a remembered failure is no older than its jail's find time and a minute. */
  lemma NothingStale(jails: seq<Jail>, es: seq<Event>, i: nat, ip: seq<Byte>, t: int)
    requires ValidJails(jails) && WellTimed(jails, es) && es != [] && i < |jails|
    requires t in Window(MemoryAfter(jails, es).windows, Key(jails[i].name, ip))
    ensures t > es[|es| - 1].now - jails[i].findTime - 60_000_000_000
  {
    MemoryBounded(jails, es);
    FindTimeOf(jails, i);
  }

  lemma {:induction false} NextPruneGrows(jails: seq<Jail>, es: seq<Event>, i: nat)
    requires ValidJails(jails) && WellTimed(jails, es) && 0 < i <= |es|
    ensures MemoryAfter(jails, es[..i]).nextPrune.Some? && MemoryAfter(jails, es).nextPrune.Some?
    ensures MemoryAfter(jails, es[..i]).nextPrune.value <= MemoryAfter(jails, es).nextPrune.value
    decreases |es|
  {
    var n := |es| - 1;
    if i == |es| {
      assert es[..i] == es;
      MemoryBounded(jails, es);
    } else {
      assert WellTimed(jails, es[..n]) && es[..n][..i] == es[..i];
      NextPruneGrows(jails, es[..n], i);
      MemoryBounded(jails, es);
    }
  }

  /** Two events that prune are at least a minute apart. */
  lemma PrunesApart(jails: seq<Jail>, es: seq<Event>, i: nat, j: nat)
    requires ValidJails(jails) && WellTimed(jails, es) && i < j < |es|
    requires DueIn(MemoryAfter(jails, es[..i]), es[i].now) && DueIn(MemoryAfter(jails, es[..j]), es[j].now)
    ensures es[j].now >= es[i].now + 60_000_000_000
  {
    assert es[..i + 1][..i] == es[..i] && es[..j][..i + 1] == es[..i + 1];
    NextPruneGrows(jails, es[..j], i + 1);
  }

  // ---- the bans ---------------------------------------------------------------------------------

  /** A ban of the i-th jail at an event: of the address it found there, in its name, until its ban
      time is over, cut to the second. */
  predicate Bans(jails: seq<Jail>, e: Event, i: nat, b: Ban)
    requires i < |jails| == |e.hits|
  {
    && e.hits[i].Some? && b.address == Net(e.hits[i].value, 8 * |e.hits[i].value|)
    && b.source == "ssh:" + jails[i].name && b.decisionId == 0 && b.reason == "failed authentication"
    && b.expiresAt * 1_000_000_000 <= e.now + jails[i].banTime < (b.expiresAt + 1) * 1_000_000_000
  }

  /** The failures of the i-th jail's address since its last ban, this one included, as far as they
      lie within the find time. */
  function Counted(jails: seq<Jail>, h: Windows, e: Event, i: nat): int
    requires i < |jails| == |e.hits| && e.hits[i].Some?
  {
    |Since(Window(h, Key(jails[i].name, e.hits[i].value)), e.now - jails[i].findTime)| + 1
  }

  lemma HistoryCount(jail: Jail, h: Windows, ip: seq<Byte>, now: int)
    requires jail.findTime > 0
    ensures Reached(jail, h, ip, now) <==> |Since(Window(h, Key(jail.name, ip)), now - jail.findTime)| + 1 >= jail.maxRetries
  {
    SinceSnoc(Window(h, Key(jail.name, ip)), now, now - jail.findTime);
  }

  lemma BanReads(jails: seq<Jail>, e: Event, i: nat, b: Ban)
    requires i < |jails| == |e.hits|
    ensures Bans(jails, e, i, b) <==> e.hits[i].Some? && b == BanFor(jails[i], e.hits[i].value, e.now)
  {
    if e.hits[i].Some? {
      assert BanFor(jails[i], e.hits[i].value, e.now).source == "ssh:" + jails[i].name;
    }
  }

  /** Jails that are still to come find their histories as they were. */
  lemma {:induction false} StillToCome(jails: seq<Jail>, h: Windows, e: Event, n: nat, i: nat, ip: seq<Byte>)
    requires ValidJails(jails) && n <= i < |jails| == |e.hits|
    ensures Window(Fold(n, (h, []), HistoryStep(jails, e)).0, Key(jails[i].name, ip)) == Window(h, Key(jails[i].name, ip))
  {
    if n > 0 {
      StillToCome(jails, h, e, n - 1, i, ip);
    }
  }

  predicate Full(jails: seq<Jail>, h: Windows, e: Event, i: nat)
    requires i < |jails| == |e.hits|
  {
    e.hits[i].Some? && Counted(jails, h, e, i) >= jails[i].maxRetries
  }

  lemma OneJail(jails: seq<Jail>, h: Windows, e: Event, n: nat)
    requires ValidJails(jails) && n < |jails| == |e.hits|
    ensures var s := Fold(n, (h, []), HistoryStep(jails, e));
      Fold(n + 1, (h, []), HistoryStep(jails, e)).1
      == if Full(jails, h, e, n) then s.1 + [BanFor(jails[n], e.hits[n].value, e.now)] else s.1
  {
    var s := Fold(n, (h, []), HistoryStep(jails, e));
    if e.hits[n].Some? {
      StillToCome(jails, h, e, n, n, e.hits[n].value);
      HistoryCount(jails[n], s.0, e.hits[n].value, e.now);
    }
  }

  ghost predicate SomeBans(jails: seq<Jail>, h: Windows, e: Event, n: nat, b: Ban)
    requires n <= |jails| == |e.hits|
  {
    exists i :: 0 <= i < n && Full(jails, h, e, i) && Bans(jails, e, i, b)
  }

  lemma SomeBansStep(jails: seq<Jail>, h: Windows, e: Event, n: nat, b: Ban)
    requires n < |jails| == |e.hits|
    ensures SomeBans(jails, h, e, n + 1, b) <==> SomeBans(jails, h, e, n, b) || (Full(jails, h, e, n) && Bans(jails, e, n, b))
  {
  }

  lemma {:induction false} BansByJail(jails: seq<Jail>, h: Windows, e: Event, n: nat, b: Ban)
    requires ValidJails(jails) && n <= |jails| == |e.hits|
    ensures b in Fold(n, (h, []), HistoryStep(jails, e)).1 <==> SomeBans(jails, h, e, n, b)
  {
    if n > 0 {
      BansByJail(jails, h, e, n - 1, b);
      OneJail(jails, h, e, n - 1);
      BanReads(jails, e, n - 1, b);
      SomeBansStep(jails, h, e, n - 1, b);
    }
  }

  /** At the last event of every run the detector emits exactly the bans of the jails that find an
      address for which the limit is reached within the find time since its last ban. */
  lemma DetectorBans(jails: seq<Jail>, es: seq<Event>, b: Ban)
    requires ValidJails(jails) && WellTimed(jails, es) && es != []
    ensures var n := |es| - 1;
      b in Next(jails, MemoryAfter(jails, es[..n]), es[n]).1
      <==> SomeBans(jails, HistoriesAfter(jails, es[..n]), es[n], |jails|, b)
  {
    var n := |es| - 1;
    DetectorRefinesHistory(jails, es);
    BansByJail(jails, HistoriesAfter(jails, es[..n]), es[n], |jails|, b);
  }
}
