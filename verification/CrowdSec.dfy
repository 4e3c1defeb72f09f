/** The CrowdSec poller interleaved with local bans, sweeps and the passing of time. */
module CrowdSec {
  import opened Rules
  import opened Store
  import opened InPlace
  import opened ThreatBans
  import RuleEngine

  // ---- decoding a response --------------------------------------------------------------------

  /** A decision as parsed: a duration or address that does not parse is None. */
  datatype Decision = Decision(id: int, isBan: bool, address: Option<Ip>, reason: string, duration: Option<int>)

  datatype Response = Response(added: seq<Decision>, deleted: seq<int>)

  predicate Invalid(d: Decision) {
    d.isBan && (d.id <= 0 || d.address.None? || d.duration.None?)
  }

  function BanOf(d: Decision, clock: int): Ban
    requires d.isBan && !Invalid(d)
  {
    Ban(d.address.value, CROWDSEC, d.reason, d.id, (clock + d.duration.value) / SECOND)
  }

  /** The bans of a response; those already over are left out. */
  function BansOf(ds: seq<Decision>, clock: int): seq<Ban>
    requires AllValid(ds)
  {
    if ds == [] then []
    else
      var d, rest := ds[|ds| - 1], ds[..|ds| - 1];
      assert AllValid(rest) by { assert forall i :: 0 <= i < |rest| ==> rest[i] == ds[i]; }
      BansOf(rest, clock) + if d.isBan && d.duration.value > 0 then [BanOf(d, clock)] else []
  }

  predicate AllValid(ds: seq<Decision>) {
    forall i :: 0 <= i < |ds| ==> !Invalid(ds[i])
  }

  predicate Malformed(r: Response, startup: bool) {
    || (exists i :: 0 <= i < |r.added| && Invalid(r.added[i]))
    || (!startup && exists i :: 0 <= i < |r.deleted| && r.deleted[i] <= 0)
  }

  function Decode(r: Response, startup: bool, clock: int): Result<Update> {
    if Malformed(r, startup) then Err
    else Ok(Update(startup, BansOf(r.added, clock), if startup then [] else r.deleted))
  }

  method CrowdSecUpdate(r: Response, startup: bool, clock: int) returns (res: Result<Update>)
    ensures res == Decode(r, startup, clock)
  {
    var add := [];
    for i := 0 to |r.added|
      invariant forall j :: 0 <= j < i ==> !Invalid(r.added[j])
      invariant add == BansOf(r.added[..i], clock)
    {
      assert r.added[..i + 1][..i] == r.added[..i];
      var d := r.added[i];
      if !d.isBan {
        continue;
      }
      if d.id <= 0 || d.address.None? || d.duration.None? {
        assert Invalid(r.added[i]);
        return Err;
      }
      if d.duration.value > 0 {
        add := add + [BanOf(d, clock)];
      }
    }
    assert r.added[..|r.added|] == r.added;
    if startup {
      return Ok(Update(true, add, []));
    }
    if exists i :: 0 <= i < |r.deleted| && r.deleted[i] <= 0 {
      return Err;
    }
    res := Ok(Update(false, add, r.deleted));
  }

  /** The ban decisions of an answer that still have time to run. */
  function Running(): Decision -> bool {
    (d: Decision) => d.isBan && d.duration.Some? && d.duration.value > 0
  }

  /** The ban says what the decision does, and expires in the second in which it ends. */
  predicate Says(b: Ban, d: Decision, clock: int) {
    && d.address.Some? && d.duration.Some?
    && b.address == d.address.value && b.source == "crowdsec" && b.reason == d.reason && b.decisionId == d.id
    && b.expiresAt * 1_000_000_000 <= clock + d.duration.value < (b.expiresAt + 1) * 1_000_000_000
  }

  lemma BanSays(d: Decision, clock: int)
    requires d.isBan && !Invalid(d)
    ensures Says(BanOf(d, clock), d, clock)
  {
  }

  lemma {:induction false} BansSay(ds: seq<Decision>, clock: int)
    requires AllValid(ds)
    ensures var bans, running := BansOf(ds, clock), Filter(ds, Running());
      |bans| == |running| && forall n :: 0 <= n < |bans| ==> Says(bans[n], running[n], clock)
  {
    if ds != [] {
      var n := |ds| - 1;
      assert AllValid(ds[..n]) by { assert forall i :: 0 <= i < n ==> ds[..n][i] == ds[i]; }
      BansSay(ds[..n], clock);
      if Running()(ds[n]) {
        BanSays(ds[n], clock);
      }
    }
  }

  /** A ban decision without a positive id, an address or a readable duration. */
  predicate Unusable(d: Decision) {
    d.isBan && (d.id < 1 || d.address.None? || d.duration.None?)
  }

  /** An answer is decoded unless a ban decision is unusable or, past startup, a deleted id is not
      positive. Then each running ban decision gives one ban that says what it does, in order, and
      the deletions are those of the answer, none at startup. */
  lemma DecodeSays(r: Response, startup: bool, clock: int)
    ensures Decode(r, startup, clock).Ok? <==>
      && (forall i :: 0 <= i < |r.added| ==> !Unusable(r.added[i]))
      && (startup || forall i :: 0 <= i < |r.deleted| ==> r.deleted[i] >= 1)
    ensures Decode(r, startup, clock).Ok? ==>
      var u, running := Decode(r, startup, clock).value, Filter(r.added, Running());
      && u.snapshot == startup && u.deleteIds == (if startup then [] else r.deleted)
      && |u.add| == |running| && forall n :: 0 <= n < |u.add| ==> Says(u.add[n], running[n], clock)
  {
    if Decode(r, startup, clock).Ok? {
      BansSay(r.added, clock);
    }
  }

  // ---- decisions by id ----------------------------------------------------------------------------

  function Lookup(bans: seq<Ban>, id: int): Option<Ban> {
    if bans == [] then None
    else
      var b := bans[|bans| - 1];
      if FromCrowdSec(b) && b.decisionId == id then Some(b) else Lookup(bans[..|bans| - 1], id)
  }

  /** What is left of an entry once expired ones do not count. */
  function Live(b: Option<Ban>, now: int): Option<Ban> {
    if b.Some? && b.value.expiresAt > now then b else None
  }

  lemma {:induction false} LookupSome(bans: seq<Ban>, id: int)
    ensures var b := Lookup(bans, id);
      if b.Some? then b.value in bans && FromCrowdSec(b.value) && b.value.decisionId == id
      else forall x :: x in bans && FromCrowdSec(x) ==> x.decisionId != id
  {
    if bans != [] {
      var n := |bans| - 1;
      assert bans == bans[..n] + [bans[n]];
      LookupSome(bans[..n], id);
    }
  }

  /** With unique keys the lookup finds exactly the ban with that id. */
  lemma LookupIs(bans: seq<Ban>, b: Ban)
    requires KeysUnique(bans) && b in bans && FromCrowdSec(b)
    ensures Lookup(bans, b.decisionId) == Some(b)
  {
    LookupSome(bans, b.decisionId);
    var f := Lookup(bans, b.decisionId);
    var i :| 0 <= i < |bans| && bans[i] == b;
    var j :| 0 <= j < |bans| && bans[j] == f.value;
    assert SameKey(bans[i], bans[j]) && SameKey(bans[j], bans[i]);
  }

  lemma {:induction false} LookupCrowd(bans: seq<Ban>, id: int)
    ensures Lookup(Filter(bans, KeepCrowd()), id) == Lookup(bans, id)
  {
    if bans != [] {
      var n := |bans| - 1;
      LookupCrowd(bans[..n], id);
      var f := Filter(bans[..n], KeepCrowd());
      assert (f + [bans[n]])[..|f|] == f && f + [] == f;
    }
  }

  lemma LookupFiltered(bans: seq<Ban>, keep: Ban -> bool, id: int)
    requires KeysUnique(bans)
    ensures Lookup(Filter(bans, keep), id)
         == if Lookup(bans, id).Some? && keep(Lookup(bans, id).value) then Lookup(bans, id) else None
  {
    FilterMembers(bans, keep);
    FilterUnique(bans, keep);
    LookupSome(bans, id);
    LookupSome(Filter(bans, keep), id);
    var f := Lookup(Filter(bans, keep), id);
    if f.Some? {
      LookupIs(bans, f.value);
    }
  }

  lemma LookupUpsert(bans: seq<Ban>, x: Ban, id: int)
    requires KeysUnique(bans) && FromCrowdSec(x)
    ensures Lookup(Upsert(bans, x), id) == if x.decisionId == id then Some(x) else Lookup(bans, id)
  {
    UpsertPointwise(bans, x);
    var out := Upsert(bans, x);
    LookupSome(out, id);
    LookupSome(bans, id);
    if x.decisionId == id {
      match FindKey(bans, x, 0) {
        case Some(i) => assert out[i] == x;
        case None => assert out[|bans|] == x;
      }
      LookupIs(out, x);
    } else if Lookup(bans, id).Some? {
      var b := Lookup(bans, id).value;
      var j :| 0 <= j < |bans| && bans[j] == b;
      assert out[j] == b;
      LookupIs(out, b);
    }
  }

  lemma {:induction false} LookupUpsertAll(bans: seq<Ban>, xs: seq<Ban>, id: int)
    requires KeysUnique(bans) && AllCrowd(xs)
    ensures Lookup(UpsertAll(bans, xs), id) == if Lookup(xs, id).Some? then Lookup(xs, id) else Lookup(bans, id)
  {
    if xs != [] {
      var n := |xs| - 1;
      LookupUpsertAll(bans, xs[..n], id);
      UpsertAllPointwise(bans, xs[..n]);
      LookupUpsert(UpsertAll(bans, xs[..n]), xs[n], id);
    }
  }

  /** What a batch of decisions does to the decision of one id. */
  function After(u: Update, id: int, before: Option<Ban>): Option<Ban> {
    if u.snapshot then Lookup(u.add, id)
    else if id in u.deleteIds then None
    else if Lookup(u.add, id).Some? then Lookup(u.add, id)
    else before
  }

  lemma LookupApplied(bans: seq<Ban>, u: Update, id: int)
    requires KeysUnique(bans) && AllCrowd(u.add)
    ensures Lookup(Applied(bans, u), id) == After(u, id, Lookup(bans, id))
  {
    if u.snapshot {
      FilterUnique(bans, KeepLocal());
      LookupFiltered(bans, KeepLocal(), id);
      LookupSome(bans, id);
      LookupUpsertAll(Filter(bans, KeepLocal()), u.add, id);
    } else {
      UpsertAllPointwise(bans, u.add);
      LookupUpsertAll(bans, u.add, id);
      LookupFiltered(UpsertAll(bans, u.add), KeepStays(u.deleteIds), id);
      LookupSome(UpsertAll(bans, u.add), id);
    }
  }

  lemma {:induction false} DecodedCrowd(ds: seq<Decision>, clock: int)
    requires AllValid(ds)
    ensures AllCrowd(BansOf(ds, clock))
  {
    if ds != [] {
      DecodedCrowd(ds[..|ds| - 1], clock);
    }
  }

  // ---- the system -------------------------------------------------------------------------------

  /** A decision as the provider keeps it, with the time at which it ends. */
  datatype Record = Record(address: Ip, reason: string, until: int)

  /** The provider: its decisions now, and as of the last pull it answered. */
  datatype Server = Server(current: map<int, Record>, pulled: map<int, Record>)

  datatype Poller = Poller(startup: bool, pending: Option<Update>)

  datatype System = System(bans: seq<Ban>, poller: Poller, server: Server, clock: int) {
    function Now(): int {
      clock / SECOND
    }
  }

  function Entry(m: map<int, Record>, id: int): Option<Record> {
    if id in m then Some(m[id]) else None
  }

  /** What an answer tells about one id: the time left counts from the moment it is read. */
  function Told(ds: seq<Decision>, id: int, clock: int): Option<Record>
    requires AllValid(ds)
  {
    if ds == [] then None
    else
      var d, rest := ds[|ds| - 1], ds[..|ds| - 1];
      assert AllValid(rest) by { assert forall i :: 0 <= i < |rest| ==> rest[i] == ds[i]; }
      if d.isBan && d.id == id then Some(Record(d.address.value, d.reason, clock + d.duration.value)) else Told(rest, id, clock)
  }

  ghost predicate TellsOnce(ds: seq<Decision>) {
    forall i, j :: 0 <= i < j < |ds| && ds[i].isBan && ds[j].isBan ==> ds[i].id != ds[j].id
  }

  /** A decision that has not ended. */
  function Ahead(x: Option<Record>, clock: int): Option<Record> {
    if x.Some? && x.value.until > clock then x else None
  }

  /** What a delta makes of the decision of one id. */
  function RecordAfter(r: Response, id: int, before: Option<Record>, clock: int): Option<Record>
    requires AllValid(r.added)
  {
    if id in r.deleted then None
    else if Told(r.added, id, clock).Some? then Told(r.added, id, clock)
    else before
  }

  /** The provider's contract. A snapshot lists what has not ended; a delta lists what turns the
      decisions of the last answered pull into those of now. Ids do not repeat in one answer, and
      a decision is not sent as already over while an earlier end of it is still ahead. */
  ghost predicate Faithful(r: Response, startup: bool, server: Server, clock: int)
    requires AllValid(r.added)
  {
    && TellsOnce(r.added)
    && forall id ::
      && (startup ==> Ahead(Told(r.added, id, clock), clock) == Ahead(Entry(server.current, id), clock))
      && (!startup ==>
            && Ahead(RecordAfter(r, id, Entry(server.pulled, id), clock), clock) == Ahead(Entry(server.current, id), clock)
            && (Told(r.added, id, clock).Some? && Ahead(Told(r.added, id, clock), clock).None? ==>
                  Ahead(Entry(server.pulled, id), clock).None?))
  }

  /** The ban that stands for a provider's decision in a second: expiry is the second of its end,
      and once that second has come there is none. */
  function Standing(x: Option<Record>, id: int, now: int): Option<Ban> {
    if x.Some? && x.value.until / 1_000_000_000 > now
    then Some(Ban(x.value.address, "crowdsec", x.value.reason, id, x.value.until / 1_000_000_000))
    else None
  }

  datatype Event =
    | ServerChange(current: map<int, Record>)
    | Clock(clock: int)
    | LocalBan(ban: Ban)
    | Sweep
    | StreamFails
    | BadBatch(response: Response)
    | GoodBatch(response: Response)
    | ApplyBatch
    | ApplyFails
    | Restart

  /** A commit sweeps expired bans away, and there is none when nothing changed. */
  function Commit(bans: seq<Ban>, u: Update, now: int): Result<seq<Ban>> {
    match Apply(bans, u, now)
    case Err => Err
    case Ok(out) => Ok(if out == bans then bans else Filter(out, KeepUnexpired(now)))
  }

  /** One atomic step: every command that touches the bans loads and stores them under the lock.
      A failed stream call does not move the provider's cursor. */
  ghost predicate Step(s: System, e: Event, t: System) {
    match e
    case ServerChange(current) => t == s.(server := s.server.(current := current))
    case Clock(clock) => clock >= s.clock && t == s.(clock := clock)
    case LocalBan(ban) =>
      IsLocal(ban) && t == (match Commit(s.bans, Update(false, [ban], []), s.Now()) case Ok(bans) => s.(bans := bans) case Err => s)
    case Sweep => t == s.(bans := Filter(s.bans, KeepUnexpired(s.Now())))
    case StreamFails => s.poller.pending.None? && t == s
    case BadBatch(r) =>
      && s.poller.pending.None? && Malformed(r, s.poller.startup)
      && t == s.(poller := Poller(true, None), server := s.server.(pulled := s.server.current))
    case GoodBatch(r) =>
      && s.poller.pending.None? && !Malformed(r, s.poller.startup) && Faithful(r, s.poller.startup, s.server, s.clock)
      && t == s.(poller := s.poller.(pending := Some(Decode(r, s.poller.startup, s.clock).value)),
                 server := s.server.(pulled := s.server.current))
    case ApplyBatch =>
      && s.poller.pending.Some? && Commit(s.bans, s.poller.pending.value, s.Now()).Ok?
      && t == s.(bans := Commit(s.bans, s.poller.pending.value, s.Now()).value, poller := Poller(false, None))
    case ApplyFails => s.poller.pending.Some? && t == s
    case Restart => t == s.(poller := Poller(true, None))
  }

  /** The stored bans with the pending batch applied. */
  function WithPending(s: System): seq<Ban> {
    match s.poller.pending
    case Some(u) => Applied(s.bans, u)
    case None => s.bans
  }

  ghost predicate Mirrors(s: System) {
    forall id :: Live(Lookup(WithPending(s), id), s.Now()) == Standing(Entry(s.server.pulled, id), id, s.Now())
  }

  /** Past startup: a snapshot has been pulled since the last start or invalid answer. */
  predicate PastStartup(s: System) {
    !s.poller.startup || s.poller.pending.Some?
  }

  ghost predicate Inv(s: System) {
    && KeysUnique(s.bans)
    && (s.poller.pending.Some? ==>
          s.poller.pending.value.snapshot == s.poller.startup && AllCrowd(s.poller.pending.value.add))
    && (PastStartup(s) ==> Mirrors(s))
  }

  /** A decision taken over is the one told, and one left out has ended. */
  ghost predicate Carried(ds: seq<Decision>, clock: int, id: int)
    requires AllValid(ds)
  {
    var b, x := Lookup(BansOf(ds, clock), id), Told(ds, id, clock);
    if b.Some? then x.Some? && b == Some(Ban(x.value.address, "crowdsec", x.value.reason, id, x.value.until / SECOND))
    else x.Some? ==> x.value.until <= clock
  }

  lemma {:induction false} NotTold(ds: seq<Decision>, clock: int, id: int)
    requires AllValid(ds) && forall i :: 0 <= i < |ds| && ds[i].isBan ==> ds[i].id != id
    ensures Lookup(BansOf(ds, clock), id) == None
  {
    if ds != [] {
      var n := |ds| - 1;
      assert AllValid(ds[..n]) by { assert forall i :: 0 <= i < n ==> ds[..n][i] == ds[i]; }
      NotTold(ds[..n], clock, id);
      LookupLast(BansOf(ds[..n], clock), ds[n], clock, id);
    }
  }

  /** One more decision in front of the lookup. */
  lemma LookupLast(some: seq<Ban>, d: Decision, clock: int, id: int)
    requires !Invalid(d)
    ensures var taken := if d.isBan && d.duration.value > 0 then [BanOf(d, clock)] else [];
      Lookup(some + taken, id) == if taken != [] && d.id == id then Some(BanOf(d, clock)) else Lookup(some, id)
  {
    if d.isBan && d.duration.value > 0 {
      assert (some + [BanOf(d, clock)])[..|some|] == some;
    } else {
      assert some + [] == some;
    }
  }

  lemma {:induction false} ToldCarried(ds: seq<Decision>, clock: int, id: int)
    requires AllValid(ds) && TellsOnce(ds)
    ensures Carried(ds, clock, id)
  {
    if ds != [] {
      var n := |ds| - 1;
      assert AllValid(ds[..n]) && TellsOnce(ds[..n]) by { assert forall i :: 0 <= i < n ==> ds[..n][i] == ds[i]; }
      LookupLast(BansOf(ds[..n], clock), ds[n], clock, id);
      if ds[n].isBan && ds[n].id == id {
        assert forall i :: 0 <= i < n ==> ds[..n][i] == ds[i];
        NotTold(ds[..n], clock, id);
      } else {
        ToldCarried(ds[..n], clock, id);
      }
    }
  }

  // ---- every step keeps the mirror ------------------------------------------------------------

  /** Only decisions that have not ended stand. */
  lemma AheadStands(x: Option<Record>, id: int, clock: int)
    ensures Standing(Ahead(x, clock), id, clock / SECOND) == Standing(x, id, clock / SECOND)
  {
  }

  lemma CarriedStands(ds: seq<Decision>, clock: int, id: int)
    requires AllValid(ds) && Carried(ds, clock, id)
    ensures Live(Lookup(BansOf(ds, clock), id), clock / SECOND) == Standing(Told(ds, id, clock), id, clock / SECOND)
  {
    AheadStands(Told(ds, id, clock), id, clock);
  }

  /** One id after a good answer. */
  lemma GoodBatchStands(s: System, r: Response, id: int)
    requires Inv(s) && s.poller.pending.None? && !Malformed(r, s.poller.startup)
    requires Faithful(r, s.poller.startup, s.server, s.clock)
    ensures Live(After(Decode(r, s.poller.startup, s.clock).value, id, Lookup(s.bans, id)), s.Now())
      == Standing(Entry(s.server.current, id), id, s.Now())
  {
    var told, pulled, current := Told(r.added, id, s.clock), Entry(s.server.pulled, id), Entry(s.server.current, id);
    ToldCarried(r.added, s.clock, id);
    CarriedStands(r.added, s.clock, id);
    AheadStands(told, id, s.clock);
    AheadStands(pulled, id, s.clock);
    AheadStands(current, id, s.clock);
    if !s.poller.startup {
      assert Live(Lookup(WithPending(s), id), s.Now()) == Standing(pulled, id, s.Now());
      AheadStands(RecordAfter(r, id, pulled, s.clock), id, s.clock);
    }
  }

  lemma GoodBatchMirrors(s: System, r: Response, t: System)
    requires Inv(s) && Step(s, GoodBatch(r), t)
    ensures Inv(t)
  {
    var u := Decode(r, s.poller.startup, s.clock).value;
    DecodedCrowd(r.added, s.clock);
    forall id ensures Live(Lookup(WithPending(t), id), t.Now()) == Standing(Entry(t.server.pulled, id), id, t.Now()) {
      LookupApplied(s.bans, u, id);
      GoodBatchStands(s, r, id);
    }
  }

  lemma LocalBanMirrors(s: System, b: Ban, t: System)
    requires Inv(s) && IsLocal(b) && t == s.(bans := Applied(s.bans, Update(false, [b], [])))
    ensures Inv(t)
  {
    var u := Update(false, [b], []);
    AppliedUnique(s.bans, u);
    DecisionsUntouched(s.bans, u);
    forall id ensures Lookup(WithPending(t), id) == Lookup(WithPending(s), id) {
      LookupCrowd(s.bans, id);
      LookupCrowd(Applied(s.bans, u), id);
      if s.poller.pending.Some? {
        LookupApplied(s.bans, s.poller.pending.value, id);
        LookupApplied(t.bans, s.poller.pending.value, id);
      }
    }
  }

  lemma SweepMirrors(s: System, t: System)
    requires Inv(s) && Step(s, Sweep, t)
    ensures Inv(t)
  {
    FilterUnique(s.bans, KeepUnexpired(s.Now()));
    forall id ensures Live(Lookup(WithPending(t), id), s.Now()) == Live(Lookup(WithPending(s), id), s.Now()) {
      LookupFiltered(s.bans, KeepUnexpired(s.Now()), id);
      if s.poller.pending.Some? {
        LookupApplied(s.bans, s.poller.pending.value, id);
        LookupApplied(t.bans, s.poller.pending.value, id);
      }
    }
  }

  /** An accepted batch is applied and then, if that changed the list, swept. */
  lemma CommitMirrors(s: System, mid: System, u: Update, t: System)
    requires Inv(mid) && mid.clock == s.clock && Commit(s.bans, u, s.Now()).Ok?
    requires mid.bans == Applied(s.bans, u) && t == mid.(bans := Commit(s.bans, u, s.Now()).value)
    ensures Inv(t)
  {
    if t.bans != mid.bans {
      SweepMirrors(mid, t);
    }
  }

  lemma ClockMirrors(s: System, clock: int, t: System)
    requires Inv(s) && Step(s, Clock(clock), t)
    ensures Inv(t)
  {
    assert s.Now() <= t.Now();
    if PastStartup(t) {
      forall id ensures Live(Lookup(WithPending(t), id), t.Now()) == Standing(Entry(t.server.pulled, id), id, t.Now()) {
        assert Live(Lookup(WithPending(s), id), s.Now()) == Standing(Entry(s.server.pulled, id), id, s.Now());
        LiveLater(Lookup(WithPending(s), id), s.Now(), t.Now());
        StandingLater(Entry(s.server.pulled, id), id, s.Now(), t.Now());
      }
    }
  }

  lemma StandingLater(x: Option<Record>, id: int, now: int, later: int)
    requires now <= later
    ensures Live(Standing(x, id, now), later) == Standing(x, id, later)
  {
  }

  lemma LiveLater(b: Option<Ban>, now: int, later: int)
    requires now <= later
    ensures Live(Live(b, now), later) == Live(b, later)
  {
  }

  lemma LocalBanKeeps(s: System, b: Ban, t: System)
    requires Inv(s) && Step(s, LocalBan(b), t)
    ensures Inv(t)
  {
    var u := Update(false, [b], []);
    if Commit(s.bans, u, s.Now()).Ok? {
      var mid := s.(bans := Applied(s.bans, u));
      LocalBanMirrors(s, b, mid);
      CommitMirrors(s, mid, u, t);
    }
  }

  lemma ApplyKeeps(s: System, t: System)
    requires Inv(s) && Step(s, ApplyBatch, t)
    ensures Inv(t)
  {
    var u := s.poller.pending.value;
    AppliedUnique(s.bans, u);
    CommitMirrors(s, s.(bans := Applied(s.bans, u), poller := Poller(false, None)), u, t);
  }

  lemma StepKeepsMirror(s: System, e: Event, t: System)
    requires Inv(s) && Step(s, e, t)
    ensures Inv(t)
  {
    match e
    case GoodBatch(r) => GoodBatchMirrors(s, r, t);
    case LocalBan(b) => LocalBanKeeps(s, b, t);
    case Sweep => SweepMirrors(s, t);
    case Clock(clock) => ClockMirrors(s, clock, t);
    case ApplyBatch => ApplyKeeps(s, t);
    case _ =>
  }

  // ---- runs ---------------------------------------------------------------------------------------

  ghost predicate Run(states: seq<System>, events: seq<Event>) {
    |states| == |events| + 1 && forall i :: 0 <= i < |events| ==> Step(states[i], events[i], states[i + 1])
  }

  ghost predicate Initial(s: System) {
    KeysUnique(s.bans) && s.poller == Poller(true, None)
  }

  /** In every reachable interleaving, once past startup, the stored decisions with the pending
      batch applied are the provider's decisions at the last answered pull, expired ones aside. */
  lemma {:induction false} MirrorEverywhere(states: seq<System>, events: seq<Event>, k: nat)
    requires Run(states, events) && Initial(states[0]) && k < |states|
    ensures Inv(states[k])
  {
    if k > 0 {
      MirrorEverywhere(states, events, k - 1);
      StepKeepsMirror(states[k - 1], events[k - 1], states[k]);
    }
  }

  function KeepLiveLocal(now: int): Ban -> bool {
    (b: Ban) => IsLocal(b) && b.expiresAt > now
  }

  lemma LiveLocals(bans: seq<Ban>, u: Update, now: int)
    requires KeysUnique(bans) && AllCrowd(u.add) && Commit(bans, u, now).Ok?
    ensures Filter(Commit(bans, u, now).value, KeepLiveLocal(now)) == Filter(bans, KeepLiveLocal(now))
  {
    LocalUntouched(bans, u);
    FilterFilter(Applied(bans, u), KeepLiveLocal(now), KeepUnexpired(now));
    FilterFilter(Applied(bans, u), KeepLiveLocal(now), KeepLocal());
    FilterFilter(bans, KeepLiveLocal(now), KeepLocal());
  }

  /** Local bans that have not expired stay, in order, whatever else happens. */
  lemma LocalsKept(s: System, e: Event, t: System)
    requires Inv(s) && Step(s, e, t) && !e.LocalBan?
    ensures Filter(t.bans, KeepLiveLocal(s.Now())) == Filter(s.bans, KeepLiveLocal(s.Now()))
  {
    if e.ApplyBatch? {
      LiveLocals(s.bans, s.poller.pending.value, s.Now());
    } else if e.Sweep? {
      FilterFilter(s.bans, KeepLiveLocal(s.Now()), KeepUnexpired(s.Now()));
    }
  }

  /** After an invalid answer the next good answer is a snapshot, whatever happens in between. */
  lemma {:induction false} InvalidThenSnapshot(states: seq<System>, events: seq<Event>, i: nat, j: nat)
    requires Run(states, events) && i < j < |events|
    requires events[i].BadBatch? && events[j].GoodBatch?
    requires forall k :: i < k < j ==> !events[k].GoodBatch?
    ensures states[j].poller.startup && states[j + 1].poller.pending.value.snapshot
  {
    StaysAtStartup(states, events, i, j);
    assert Step(states[j], events[j], states[j + 1]);
  }

  lemma {:induction false} StaysAtStartup(states: seq<System>, events: seq<Event>, i: nat, j: nat)
    requires Run(states, events) && i < j <= |events| && events[i].BadBatch?
    requires forall k :: i < k < j ==> !events[k].GoodBatch?
    ensures states[j].poller == Poller(true, None)
    decreases j
  {
    assert Step(states[j - 1], events[j - 1], states[j]);
    if j > i + 1 {
      StaysAtStartup(states, events, i, j - 1);
    }
  }

  predicate Stuck(s: System, u: Update) {
    s.poller.pending == Some(u) && exists i :: 0 <= i < |u.add| && u.add[i].expiresAt <= s.Now()
  }

  /** Once a ban of the pending batch has expired, the batch is never applied and never given up
      unless the service restarts. */
  lemma {:induction false} ExpiredBatchStuck(states: seq<System>, events: seq<Event>, u: Update, i: nat, j: nat)
    requires Run(states, events) && i <= j < |states| && Stuck(states[i], u)
    requires forall k :: i <= k < j ==> !events[k].Restart?
    ensures Stuck(states[j], u)
    ensures forall k :: i <= k < j ==> !events[k].ApplyBatch? && !events[k].GoodBatch?
  {
    if j > i {
      ExpiredBatchStuck(states, events, u, i, j - 1);
      assert Step(states[j - 1], events[j - 1], states[j]);
      var n :| 0 <= n < |u.add| && u.add[n].expiresAt <= states[j - 1].Now();
      assert !Acceptable(u.add[n], states[j - 1].Now());
    }
  }

  /** A decision that runs out within the second it is read in leaves a batch that is stuck
      from the start. */
  lemma ShortDecisionStuck(s: System, r: Response, t: System, i: nat)
    requires Step(s, GoodBatch(r), t) && i < |r.added| && r.added[i].isBan
    requires 0 < r.added[i].duration.value < SECOND - s.clock % SECOND
    ensures t.poller.pending.Some? && Stuck(t, t.poller.pending.value)
  {
    assert !Invalid(r.added[i]);
    var b := BanOf(r.added[i], s.clock);
    WithinSecond(s.clock, r.added[i].duration.value);
    var n := TakenOver(r.added, s.clock, i);
    var u := t.poller.pending.value;
    assert u.add[n] == b && b.expiresAt <= t.Now();
  }

  lemma WithinSecond(clock: int, d: int)
    requires 0 < d < SECOND - clock % SECOND
    ensures (clock + d) / SECOND == clock / SECOND
  {
  }

  lemma {:induction false} TakenOver(ds: seq<Decision>, clock: int, i: nat) returns (n: nat)
    requires AllValid(ds) && i < |ds| && ds[i].isBan && ds[i].duration.value > 0
    ensures n < |BansOf(ds, clock)| && BansOf(ds, clock)[n] == BanOf(ds[i], clock)
  {
    var rest := ds[..|ds| - 1];
    assert AllValid(rest) by { assert forall i :: 0 <= i < |rest| ==> rest[i] == ds[i]; }
    if i == |ds| - 1 {
      n := |BansOf(rest, clock)|;
    } else {
      n := TakenOver(rest, clock, i);
    }
  }

  // ---- one turn of the polling loop ------------------------------------------------------------

  /** What one turn reads: an answer or a failure, unless a batch is still pending. */
  function Fetched(p: Poller, answer: Option<Response>, clock: int): Poller {
    if p.pending.Some? || answer.None? then p
    else
      match Decode(answer.value, p.startup, clock)
      case Err => Poller(true, None)
      case Ok(u) => p.(pending := Some(u))
  }

  /** blocked: the lock, the load or the save failed. */
  function Settled(p: Poller, bans: seq<Ban>, blocked: bool, now: int): (Poller, seq<Ban>) {
    if p.pending.None? || blocked then (p, bans)
    else
      match Commit(bans, p.pending.value, now)
      case Err => (p, bans)
      case Ok(out) => (Poller(false, None), out)
  }

  /** The state the turn leaves: a commit sweeps expired rules too. */
  function StateAfter(p: Poller, st: Store.State, blocked: bool, now: int): Store.State {
    if p.pending.None? || blocked || Apply(st.bans, p.pending.value, now).Err? then st
    else
      var bans := Apply(st.bans, p.pending.value, now).value;
      if bans == st.bans then st else RuleEngine.Swept(st.(bans := bans), now)
  }

  class PollLoop {
    var startup: bool
    var pending: Option<Update>

    constructor ()
      ensures State() == Poller(true, None)
    {
      startup, pending := true, None;
    }

    ghost function State(): Poller
      reads this
    {
      Poller(startup, pending)
    }

    /** Pulls unless a batch is pending, then tries to apply the pending batch. An invalid answer
        asks for a fresh snapshot; a batch that could not be applied is retried. */
    method Turn(answer: Option<Response>, st: Store.State, blocked: bool, clock: int) returns (out: Store.State)
      modifies this
      ensures (State(), out.bans) == Settled(Fetched(old(State()), answer, clock), st.bans, blocked, clock / SECOND)
      ensures out == StateAfter(Fetched(old(State()), answer, clock), st, blocked, clock / SECOND)
    {
      out := st;
      if pending.None? && answer.Some? {
        var update := CrowdSecUpdate(answer.value, startup, clock);
        match update {
          case Err => startup := true;
          case Ok(u) => pending := Some(u);
        }
      }
      if pending.Some? && !blocked {
        var ok, changed;
        out, ok, changed := ApplyThreatUpdateToState(st, pending.value, clock / SECOND);
        if ok {
          startup, pending := false, None;
        }
        if changed {
          out := RuleEngine.SweepExpired(out, clock / SECOND);
        }
      }
    }
  }

  /** A turn is a pull step followed by an apply step, so turns only make reachable states. */
  lemma TurnIsSteps(s: System, answer: Option<Response>, blocked: bool) returns (mid: System, t: System, pull: Event, apply: Event)
    requires s.poller.pending.None? && answer.Some? && !Malformed(answer.value, s.poller.startup)
      ==> Faithful(answer.value, s.poller.startup, s.server, s.clock)
    ensures s.poller.pending.Some? ==> mid == s
    ensures s.poller.pending.None? ==> Step(s, pull, mid)
    ensures mid.poller.pending.None? ==> t == mid
    ensures mid.poller.pending.Some? ==> Step(mid, apply, t)
    ensures (t.poller, t.bans) == Settled(Fetched(s.poller, answer, s.clock), s.bans, blocked, s.Now())
  {
    pull, apply := StreamFails, ApplyFails;
    mid := s;
    if s.poller.pending.None? && answer.Some? {
      var r := answer.value;
      pull := if Malformed(r, s.poller.startup) then BadBatch(r) else GoodBatch(r);
      mid := s.(poller := Fetched(s.poller, answer, s.clock), server := s.server.(pulled := s.server.current));
    }
    t := mid;
    if mid.poller.pending.Some? && !blocked && Commit(mid.bans, mid.poller.pending.value, mid.Now()).Ok? {
      apply := ApplyBatch;
      t := mid.(bans := Commit(mid.bans, mid.poller.pending.value, mid.Now()).value, poller := Poller(false, None));
    }
  }
}
