/** What a threat-ban batch must be and what it leaves stored, ban by ban. */
module BatchFacts {
  import opened Rules
  import opened Store
  import opened InPlace
  import opened ThreatBans
  import CrowdSec
  import RuleCommands

  /** A decision of the provider with its id, or a ban of a log watcher, without one. */
  predicate KnownBan(b: Ban, now: int) {
    && b.expiresAt > now && !b.address.BadIp?
    && (b.source == "crowdsec" ==> b.decisionId >= 1)
    && (b.source != "crowdsec" ==> "ssh:" < b.source && b.decisionId == 0)
  }

  /** A batch is accepted exactly if all its bans are known and, in a delta, all ids positive. */
  lemma BatchAccepted(bans: seq<Ban>, u: Update, now: int)
    ensures Apply(bans, u, now).Ok?
      <==> && (forall i :: 0 <= i < |u.add| ==> KnownBan(u.add[i], now))
           && (u.snapshot || forall i :: 0 <= i < |u.deleteIds| ==> u.deleteIds[i] >= 1)
  {
    forall i | 0 <= i < |u.add| ensures Acceptable(u.add[i], now) <==> KnownBan(u.add[i], now) {
    }
  }

  /** Decisions are the same by id, and bans of one watcher by address. */
  predicate SameBan(a: Ban, b: Ban) {
    a.source == b.source && (if a.source == "crowdsec" then a.decisionId == b.decisionId else a.address == b.address)
  }

  predicate Named(xs: seq<Ban>, b: Ban) {
    exists i :: 0 <= i < |xs| && SameBan(xs[i], b)
  }

  /** b is in the batch, and nothing behind it is the same ban. */
  predicate Newest(xs: seq<Ban>, b: Ban) {
    exists i :: 0 <= i < |xs| && xs[i] == b && forall j :: i < j < |xs| ==> !SameBan(xs[j], b)
  }

  lemma NamedStep(xs: seq<Ban>, x: Ban, b: Ban)
    ensures Named(xs + [x], b) <==> Named(xs, b) || SameBan(x, b)
    ensures Newest(xs + [x], b) <==> b == x || (Newest(xs, b) && !SameBan(x, b))
  {
    var all := xs + [x];
    assert all[|xs|] == x;
    assert forall i :: 0 <= i < |xs| ==> all[i] == xs[i];
    if Named(xs, b) {
      var i :| 0 <= i < |xs| && SameBan(xs[i], b);
      assert SameBan(all[i], b);
    }
    if Newest(all, b) && b != x {
      var i :| 0 <= i < |all| && all[i] == b && forall j :: i < j < |all| ==> !SameBan(all[j], b);
      assert xs[i] == b;
    }
    if Newest(xs, b) && !SameBan(x, b) {
      var i :| 0 <= i < |xs| && xs[i] == b && forall j :: i < j < |xs| ==> !SameBan(xs[j], b);
      assert all[i] == b;
    }
  }

  lemma UpsertMembers(bans: seq<Ban>, x: Ban, b: Ban)
    requires KeysUnique(bans)
    ensures b in Upsert(bans, x) <==> b == x || (b in bans && !SameBan(x, b))
  {
    var out := Upsert(bans, x);
    UpsertPointwise(bans, x);
    AddsKey(bans, x);
    if b in bans && !SameBan(x, b) {
      var j :| 0 <= j < |bans| && bans[j] == b;
      assert out[j] == b;
    }
    if b == x {
      match FindKey(bans, x, 0)
      case Some(i) => assert out[i] == x;
      case None => assert out[|bans|] == x;
    }
  }

  lemma {:induction false} UpsertAllMembers(bans: seq<Ban>, xs: seq<Ban>, b: Ban)
    requires KeysUnique(bans)
    ensures b in UpsertAll(bans, xs) <==> Newest(xs, b) || (b in bans && !Named(xs, b))
  {
    if xs != [] {
      var n := |xs| - 1;
      UpsertAllPointwise(bans, xs[..n]);
      UpsertAllMembers(bans, xs[..n], b);
      UpsertMembers(UpsertAll(bans, xs[..n]), xs[n], b);
      NamedStep(xs[..n], xs[n], b);
      assert xs[..n] + [xs[n]] == xs;
    }
  }

  /** After a batch a ban is stored exactly if it is the newest of its kind in the batch, or was
      stored before and is not in the batch; a snapshot forgets the decisions it does not name,
      a delta those it deletes. */
  lemma BatchStored(bans: seq<Ban>, u: Update, b: Ban)
    requires KeysUnique(bans)
    ensures b in Applied(bans, u)
      <==> && (u.snapshot || b.source != "crowdsec" || b.decisionId !in u.deleteIds)
           && (Newest(u.add, b)
               || (b in bans && !Named(u.add, b) && (u.snapshot ==> b.source != "crowdsec")))
  {
    if u.snapshot {
      FilterUnique(bans, KeepLocal());
      FilterMembers(bans, KeepLocal());
      UpsertAllMembers(Filter(bans, KeepLocal()), u.add, b);
    } else {
      UpsertAllMembers(bans, u.add, b);
      FilterMembers(UpsertAll(bans, u.add), KeepStays(u.deleteIds));
    }
  }

  /** A replaced ban keeps its place, and what a delta adds stands behind what was stored. */
  lemma BatchOrder(bans: seq<Ban>, u: Update)
    requires KeysUnique(bans) && !u.snapshot && u.deleteIds == []
    ensures var out := Applied(bans, u);
      && |bans| <= |out|
      && (forall j :: 0 <= j < |bans| ==> SameBan(out[j], bans[j]) && (!Named(u.add, bans[j]) ==> out[j] == bans[j]))
      && (forall j :: |bans| <= j < |out| ==> !Named(bans, out[j]))
  {
    var out := UpsertAll(bans, u.add);
    UpsertAllPointwise(bans, u.add);
    UpsertAllSettles(bans, u.add);
    FilterAll(out, KeepStays(u.deleteIds));
    forall j | 0 <= j < |bans| ensures !Named(u.add, bans[j]) ==> out[j] == bans[j] {
      NamedLatest(bans[j], u.add);
    }
    forall j | |bans| <= j < |out| ensures !Named(bans, out[j]) {
      if i :| 0 <= i < |bans| && SameBan(bans[i], out[j]) {
        assert SameKey(bans[i], out[j]);
      }
    }
  }

  lemma {:induction false} NamedLatest(b: Ban, xs: seq<Ban>)
    ensures !Named(xs, b) ==> Latest(b, xs) == b
  {
    if xs != [] {
      var n := |xs| - 1;
      NamedLatest(b, xs[..n]);
      NamedStep(xs[..n], xs[n], b);
      assert xs[..n] + [xs[n]] == xs;
    }
  }

  // ---- what a turn of the poll loop commits ----------------------------------------------------------

  /** A pending batch that is tried, accepted and changes something. */
  predicate Commits(p: CrowdSec.Poller, st: State, blocked: bool, now: int) {
    p.pending.Some? && !blocked && Apply(st.bans, p.pending.value, now).Ok? && Applied(st.bans, p.pending.value) != st.bans
  }

  /** Such a turn stores the batch without the bans that have ended and drops expired rules; any
      other turn leaves the state as it is. */
  lemma TurnCommits(p: CrowdSec.Poller, st: State, blocked: bool, now: int, r: Rule, b: Ban)
    ensures var out := CrowdSec.StateAfter(p, st, blocked, now);
      if !Commits(p, st, blocked, now) then out == st
      else && (b in out.bans <==> b in Applied(st.bans, p.pending.value) && now < b.expiresAt)
           && (r in out.rules4 <==> r in st.rules4 && (r.expiresAt == 0 || now < r.expiresAt))
           && (r in out.rules6 <==> r in st.rules6 && (r.expiresAt == 0 || now < r.expiresAt))
           && out == st.(bans := out.bans, rules4 := out.rules4, rules6 := out.rules6)
  {
    if Commits(p, st, blocked, now) {
      RuleCommands.SweptMembers(st.(bans := Applied(st.bans, p.pending.value)), now, r, b);
    }
  }
}
