/**
 Merging the same fresh findings again: exactly when the second merge changes no disposition and sheds nothing,
 and, over whole documents, that the annotated records come out the same in any listing order.
 */
module Remerging {
  import opened Wrappers
  import opened Sorting
  import opened SelectionText
  import opened Records
  import opened Dispositions
  import opened Grafting
  import opened Annotation
  import opened Merging

  /** A fresh record's own lists: each mutant once, dispositions on its survivors, never both attested and withdrawn. */
  ghost predicate Judged(f: Finding) {
    && Distinct(AttestedIds(f.attested)) && Distinct(WithdrawnIds(f.withdrawn))
    && forall key :: key in AttestedMap(f.attested) ==> key in SiteMap(f.survivors) && key !in WithdrawnMap(f.withdrawn)
  }

  /**
   A live disposition that would graft, and equals the snapshot's once it adopts the fresh site: the second merge
   takes it for an untouched one and sheds it.
   */
  predicate AdoptsIntoSnapshot(key: Key, live: map<Key, Attestation>, carried: map<Key, Attestation>,
          sites: map<Key, string>, snap: Snapshot) {
    && key in live && key !in carried && key in sites && snap.Some? && key in snap.value
    && live[key].site == "" && live[key] != snap.value[key] && live[key].(site := sites[key]) == snap.value[key]
  }

  /** A withdrawal of a carried disposition at a moved site: the first merge honours and drops it, the second forgets it. */
  predicate ForgetsWithdrawal(key: Key, live: map<Key, Attestation>, carried: map<Key, Attestation>,
          retracted: map<Key, WithdrawnAttestation>, sites: map<Key, string>, snap: Snapshot)
  {
    && key in carried && key !in live && key in retracted && key in sites
    && snap.Some? && key in snap.value && snap.value[key].reason == carried[key].reason
    && retracted[key].site != "" && retracted[key].site != sites[key]
  }

  /** Checkable before merging: no mutant is in either case. */
  ghost predicate Settled(live: Finding, f: Finding, snap: Snapshot) {
    var a, c, w, sites := AttestedMap(live.attested), AttestedMap(f.attested), WithdrawnMap(live.withdrawn), SiteMap(f.survivors);
    && (forall key :: !AdoptsIntoSnapshot(key, a, c, sites, snap))
    && (forall key :: !ForgetsWithdrawal(key, a, c, w, sites, snap))
  }

  function Onto(live: Finding, f: Finding, snap: Snapshot): Finding {
    var g := GraftOnto(live, f, snap); f.(attested := g.attested, withdrawn := g.withdrawn)
  }

  ghost predicate Stable(live: Finding, f: Finding, snap: Snapshot) {
    var once := Onto(live, f, snap);
    Onto(once, f, snap) == once && GraftOnto(once, f, snap).sheds == []
  }

  // ---- the walks, replayed over their own result ----

  lemma {:induction false} SameCarry(carried: seq<Attestation>, live: map<Key, Attestation>,
          retracted: map<Key, WithdrawnAttestation>, live': map<Key, Attestation>,
          retracted': map<Key, WithdrawnAttestation>, sites: map<Key, string>, snap: Snapshot)
    requires forall a :: a in carried ==> CarryFresh(a, live, retracted, sites, snap) == CarryFresh(a, live', retracted', sites, snap)
    ensures GraftFresh(carried, live, retracted, sites, snap) == GraftFresh(carried, live', retracted', sites, snap)
  {
    if carried != [] {
      assert carried[|carried| - 1] in carried;
      SameCarry(carried[..|carried| - 1], live, retracted, live', retracted', sites, snap);
    }
  }

  ghost predicate FromPrior(b: Attestation, prior: seq<Attestation>, sites: map<Key, string>, snap: Snapshot) {
    exists a :: a in prior && JudgePrior(a, {}, sites, snap) == Grafts(b)
  }

  /** The rows the second walk appends, each at its fresh site. */
  lemma {:induction false} GraftedRows(prior: seq<Attestation>, base: seq<Attestation>, sites: map<Key, string>,
          snap: Snapshot)
    ensures var g := GraftPrior(prior, base, sites, snap);
            && |base| <= |g.attested| && g.attested[..|base|] == base
            && forall b :: b in g.attested[|base|..] ==>
                 b.Id() in sites && b.site == sites[b.Id()] && FromPrior(b, prior, sites, snap)
  {
    if prior != [] {
      var init, a := prior[..|prior| - 1], prior[|prior| - 1];
      SplitLast(prior);
      GraftedRows(init, base, sites, snap);
      var g, g' := GraftPrior(init, base, sites, snap), GraftPrior(prior, base, sites, snap);
      assert a in prior;
      forall b | b in g'.attested[|base|..]
        ensures b.Id() in sites && b.site == sites[b.Id()] && FromPrior(b, prior, sites, snap)
      {
        if b in g.attested[|base|..] {
          var p :| p in init && JudgePrior(p, {}, sites, snap) == Grafts(b);
          assert p in prior;
        } else {
          assert g'.attested == g.attested + [b];
          assert JudgePrior(a, {}, sites, snap) == Grafts(b);
        }
      }
    }
  }

  /** A disposition that grafts onto itself. */
  predicate GraftsAsIs(a: Attestation, sites: map<Key, string>, snap: Snapshot) { JudgePrior(a, {}, sites, snap) == Grafts(a) }

  lemma {:induction false} WalkStands(prior: seq<Attestation>, base: seq<Attestation>, sites: map<Key, string>,
          snap: Snapshot)
    requires forall a :: a in prior ==> a.Id() in AttestedIds(base)
    ensures GraftPrior(prior, base, sites, snap) == Graft(base, [])
  {
    if prior != [] {
      SplitLast(prior);
      WalkStands(prior[..|prior| - 1], base, sites, snap);
      AttestedLookup(base, prior[|prior| - 1].Id());
    }
  }

  lemma {:induction false} WalkStep(prior: seq<Attestation>, base: seq<Attestation>, xs: seq<Attestation>,
          b: Attestation, sites: map<Key, string>, snap: Snapshot)
    requires GraftPrior(prior, base, sites, snap) == Graft(xs, []) && b.Id() !in AttestedIds(xs) && GraftsAsIs(b, sites, snap)
    ensures GraftPrior(prior + [b], base, sites, snap) == Graft(xs + [b], [])
  {
    assert (prior + [b])[..|prior|] == prior;
    AttestedLookup(xs, b.Id());
  }

  lemma {:induction false} LastIsNew(xs: seq<Attestation>, b: Attestation)
    requires Distinct(AttestedIds(xs + [b]))
    ensures Distinct(AttestedIds(xs)) && b.Id() !in AttestedIds(xs)
  {
    AttestedAppend(xs, b, b.Id());
    DistinctInit(AttestedIds(xs), b.Id());
  }

  ghost predicate AllGraftAsIs(rows: seq<Attestation>, sites: map<Key, string>, snap: Snapshot) {
    forall b :: b in rows ==> GraftsAsIs(b, sites, snap)
  }

  lemma {:induction false} WalkAppends(rows: seq<Attestation>, prior: seq<Attestation>, base: seq<Attestation>,
          sites: map<Key, string>, snap: Snapshot)
    requires GraftPrior(prior, base, sites, snap) == Graft(base, [])
    requires Distinct(AttestedIds(base + rows)) && AllGraftAsIs(rows, sites, snap)
    ensures GraftPrior(prior + rows, base, sites, snap) == Graft(base + rows, [])
  {
    if rows == [] {
      assert prior + rows == prior && base + rows == base;
    } else {
      var n := |rows| - 1;
      var init, b := rows[..n], rows[n];
      SplitAfter(base, rows);
      SplitAfter(prior, rows);
      AllButLast(rows, sites, snap);
      LastIsNew(base + init, b);
      WalkAppends(init, prior, base, sites, snap);
      WalkStep(prior + init, base, base + init, b, sites, snap);
    }
  }

  lemma {:induction false} SplitAfter<T>(xs: seq<T>, rows: seq<T>)
    requires rows != []
    ensures xs + rows == (xs + rows[..|rows| - 1]) + [rows[|rows| - 1]]
  {
  }

  lemma {:induction false} AllButLast(rows: seq<Attestation>, sites: map<Key, string>, snap: Snapshot)
    requires rows != [] && AllGraftAsIs(rows, sites, snap)
    ensures AllGraftAsIs(rows[..|rows| - 1], sites, snap) && GraftsAsIs(rows[|rows| - 1], sites, snap)
  {
    assert rows[|rows| - 1] in rows;
  }

  /** Withdrawals already standing, in order, stand again unchanged. */
  lemma {:induction false} StandAgain(ws: seq<WithdrawnAttestation>, taken: set<Key>, sites: map<Key, string>)
    requires Distinct(WithdrawnIds(ws))
    requires forall w :: w in ws ==> w.Id() !in taken && w.Id() in sites && w.site == sites[w.Id()]
    ensures AddWithdrawn(ws, [], taken, sites) == ws
  {
    if ws != [] {
      var init, w := ws[..|ws| - 1], ws[|ws| - 1];
      SplitLast(ws);
      WithdrawnAppend(init, w, w.Id());
      DistinctInit(WithdrawnIds(init), w.Id());
      StandAgain(init, taken, sites);
      assert w in ws;
    }
  }

  predicate Stands(w: WithdrawnAttestation, taken: set<Key>, sites: map<Key, string>) {
    w.Id() !in taken && w.Id() in sites && (w.site == "" || w.site == sites[w.Id()])
  }

  lemma {:induction false} AddNothing(ws: seq<WithdrawnAttestation>, acc: seq<WithdrawnAttestation>, taken: set<Key>,
          sites: map<Key, string>)
    requires forall w :: w in ws && Stands(w, taken, sites) ==> w.Id() in WithdrawnIds(acc)
    ensures AddWithdrawn(ws, acc, taken, sites) == acc
  {
    if ws != [] {
      assert ws[|ws| - 1] in ws;
      AddNothing(ws[..|ws| - 1], acc, taken, sites);
    }
  }

  lemma {:induction false} Saturated(ws: seq<WithdrawnAttestation>, acc: seq<WithdrawnAttestation>, taken: set<Key>,
          sites: map<Key, string>)
    ensures forall key :: key in WithdrawnIds(acc) ==> key in WithdrawnIds(AddWithdrawn(ws, acc, taken, sites))
    ensures forall w :: w in ws && Stands(w, taken, sites) ==> w.Id() in WithdrawnIds(AddWithdrawn(ws, acc, taken, sites))
  {
    if ws != [] {
      var w := ws[|ws| - 1];
      SplitLast(ws);
      Saturated(ws[..|ws| - 1], acc, taken, sites);
      var out := AddWithdrawn(ws[..|ws| - 1], acc, taken, sites);
      if w.Id() in sites {
        WithdrawnAppend(out, w.(site := sites[w.Id()]), w.Id());
      }
    }
  }

  /** Every withdrawal the walk adds stands at its fresh site. */
  lemma {:induction false} AddedStand(ws: seq<WithdrawnAttestation>, acc: seq<WithdrawnAttestation>, taken: set<Key>,
          sites: map<Key, string>)
    requires forall w :: w in acc ==> w.Id() !in taken && w.Id() in sites && w.site == sites[w.Id()]
    ensures forall w :: w in AddWithdrawn(ws, acc, taken, sites) ==> w.Id() !in taken && w.Id() in sites && w.site == sites[w.Id()]
  {
    if ws != [] {
      AddedStand(ws[..|ws| - 1], acc, taken, sites);
    }
  }

  lemma {:induction false} WithdrawnAgain(priorWithdrawn: seq<WithdrawnAttestation>,
          freshWithdrawn: seq<WithdrawnAttestation>, taken: set<Key>, sites: map<Key, string>)
    requires Distinct(WithdrawnIds(priorWithdrawn)) && Distinct(WithdrawnIds(freshWithdrawn))
    ensures var once := AddWithdrawn(freshWithdrawn, AddWithdrawn(priorWithdrawn, [], taken, sites), taken, sites);
            AddWithdrawn(freshWithdrawn, AddWithdrawn(once, [], taken, sites), taken, sites) == once
  {
    var first := AddWithdrawn(priorWithdrawn, [], taken, sites);
    var once := AddWithdrawn(freshWithdrawn, first, taken, sites);
    AddWithdrawnDistinct(priorWithdrawn, [], taken, sites);
    AddWithdrawnDistinct(freshWithdrawn, first, taken, sites);
    AddedStand(priorWithdrawn, [], taken, sites);
    AddedStand(freshWithdrawn, first, taken, sites);
    StandAgain(once, taken, sites);
    Saturated(freshWithdrawn, first, taken, sites);
    AddNothing(freshWithdrawn, once, taken, sites);
  }

  // ---- the second merge, mutant by mutant ----

  lemma {:induction false} CarryAgain(key: Key, live: map<Key, Attestation>, carried: map<Key, Attestation>,
          retracted: map<Key, WithdrawnAttestation>, freshRetracted: map<Key, WithdrawnAttestation>,
          sites: map<Key, string>, snap: Snapshot, live': map<Key, Attestation>,
          retracted': map<Key, WithdrawnAttestation>)
    requires key in carried && carried[key].Id() == key && key in sites && key !in freshRetracted
    requires Lookup(live', key) == AttestedAt(key, live, carried, retracted, sites, snap)
    requires Lookup(retracted', key) == WithdrawnAt(key, retracted, freshRetracted, key in live', sites)
    requires !ForgetsWithdrawal(key, live, carried, retracted, sites, snap)
    ensures CarryFresh(carried[key], live, retracted, sites, snap) == CarryFresh(carried[key], live', retracted', sites, snap)
  {
  }

  lemma {:induction false} OntoAt(live: Finding, f: Finding, snap: Snapshot, key: Key)
    requires OneEach(live.attested, f.attested, live.withdrawn, f.withdrawn)
    ensures var once := Onto(live, f, snap);
            && Lookup(AttestedMap(once.attested), key)
                 == AttestedAt(key, AttestedMap(live.attested), AttestedMap(f.attested), WithdrawnMap(live.withdrawn), SiteMap(f.survivors), snap)
            && Lookup(WithdrawnMap(once.withdrawn), key)
                 == WithdrawnAt(key, WithdrawnMap(live.withdrawn), WithdrawnMap(f.withdrawn), key in AttestedMap(once.attested), SiteMap(f.survivors))
            && OneEach(once.attested, f.attested, once.withdrawn, f.withdrawn)
  {
    GraftAt(live.attested, f.attested, live.withdrawn, f.withdrawn, f.survivors, snap, key);
    GraftDistinct(live.attested, f.attested, live.withdrawn, f.withdrawn, f.survivors, snap);
  }

  function KeptFresh(live: Finding, f: Finding, snap: Snapshot): seq<Attestation> {
    GraftFresh(f.attested, AttestedMap(live.attested), WithdrawnMap(live.withdrawn), SiteMap(f.survivors), snap)
  }

  lemma {:induction false} CarriedAgain(live: Finding, f: Finding, snap: Snapshot)
    requires OneEach(live.attested, f.attested, live.withdrawn, f.withdrawn) && Judged(f) && Settled(live, f, snap)
    ensures KeptFresh(Onto(live, f, snap), f, snap) == KeptFresh(live, f, snap)
  {
    var once, sites := Onto(live, f, snap), SiteMap(f.survivors);
    AttestedMapExact(f.attested);
    forall a | a in f.attested
      ensures CarryFresh(a, AttestedMap(live.attested), WithdrawnMap(live.withdrawn), sites, snap)
           == CarryFresh(a, AttestedMap(once.attested), WithdrawnMap(once.withdrawn), sites, snap)
    {
      var i :| 0 <= i < |f.attested| && f.attested[i] == a;
      OntoAt(live, f, snap, a.Id());
      CarryAgain(a.Id(), AttestedMap(live.attested), AttestedMap(f.attested), WithdrawnMap(live.withdrawn), WithdrawnMap(f.withdrawn), sites, snap,
                 AttestedMap(once.attested), WithdrawnMap(once.withdrawn));
    }
    SameCarry(f.attested, AttestedMap(live.attested), WithdrawnMap(live.withdrawn), AttestedMap(once.attested), WithdrawnMap(once.withdrawn), sites, snap);
  }

  /** A carried disposition the first merge did not keep was not live. */
  lemma {:induction false} UnkeptIsUncarried(live: Finding, f: Finding, snap: Snapshot, key: Key)
    requires OneEach(live.attested, f.attested, live.withdrawn, f.withdrawn)
    requires key !in AttestedIds(KeptFresh(live, f, snap)) && key in AttestedMap(live.attested)
    ensures key !in AttestedMap(f.attested)
  {
    var sites := SiteMap(f.survivors);
    GraftFreshAt(f.attested, AttestedMap(live.attested), WithdrawnMap(live.withdrawn), sites, snap, key);
    AttestedLookup(KeptFresh(live, f, snap), key);
    AttestedLookup(f.attested, key);
  }

  lemma {:induction false} AttestedMember(xs: seq<Attestation>, a: Attestation)
    requires Distinct(AttestedIds(xs)) && a in xs
    ensures Lookup(AttestedMap(xs), a.Id()) == Some(a)
  {
    AttestedMapExact(xs);
    var i :| 0 <= i < |xs| && xs[i] == a;
  }

  /** A row the first merge grafted grafts onto itself in the second, unless it adopted its way into the snapshot. */
  lemma {:induction false} GraftedAgain(live: Finding, f: Finding, snap: Snapshot, b: Attestation)
    requires OneEach(live.attested, f.attested, live.withdrawn, f.withdrawn) && Judged(f) && Settled(live, f, snap)
    requires b.Id() !in AttestedIds(KeptFresh(live, f, snap))
    requires FromPrior(b, live.attested, SiteMap(f.survivors), snap)
    ensures GraftsAsIs(b, SiteMap(f.survivors), snap)
  {
    var sites, key := SiteMap(f.survivors), b.Id();
    var a :| a in live.attested && JudgePrior(a, {}, sites, snap) == Grafts(b);
    AttestedMember(live.attested, a);
    UnkeptIsUncarried(live, f, snap, key);
    assert !AdoptsIntoSnapshot(key, AttestedMap(live.attested), AttestedMap(f.attested), sites, snap);
  }

  /** The rows the first merge grafted beside the carried ones. */
  function RowsGrafted(live: Finding, f: Finding, snap: Snapshot): seq<Attestation> {
    var base := KeptFresh(live, f, snap);
    var all := Onto(live, f, snap).attested;
    if |base| <= |all| then all[|base|..] else []
  }

  lemma {:induction false} RowsGraftedFromPrior(live: Finding, f: Finding, snap: Snapshot)
    ensures Onto(live, f, snap).attested == KeptFresh(live, f, snap) + RowsGrafted(live, f, snap)
    ensures forall b :: b in RowsGrafted(live, f, snap) ==> FromPrior(b, live.attested, SiteMap(f.survivors), snap)
  {
    GraftedRows(live.attested, KeptFresh(live, f, snap), SiteMap(f.survivors), snap);
    AfterPrefix(KeptFresh(live, f, snap), Onto(live, f, snap).attested);
  }

  lemma {:induction false} AfterPrefix<T>(base: seq<T>, all: seq<T>)
    requires |base| <= |all| && all[..|base|] == base
    ensures all == base + all[|base|..]
  {
  }

  lemma {:induction false} RowsGraftedAgain(live: Finding, f: Finding, snap: Snapshot)
    requires OneEach(live.attested, f.attested, live.withdrawn, f.withdrawn) && Judged(f) && Settled(live, f, snap)
    ensures Distinct(AttestedIds(Onto(live, f, snap).attested))
    ensures AllGraftAsIs(RowsGrafted(live, f, snap), SiteMap(f.survivors), snap)
  {
    var base, rows := KeptFresh(live, f, snap), RowsGrafted(live, f, snap);
    RowsGraftedFromPrior(live, f, snap);
    OntoAt(live, f, snap, Key("", ""));
    forall b | b in rows ensures GraftsAsIs(b, SiteMap(f.survivors), snap) {
      var j :| 0 <= j < |rows| && rows[j] == b;
      NotAmong(base, rows, j);
      GraftedAgain(live, f, snap, b);
    }
  }

  lemma {:induction false} NotAmong(base: seq<Attestation>, rows: seq<Attestation>, j: nat)
    requires j < |rows| && Distinct(AttestedIds(base + rows))
    ensures rows[j].Id() !in AttestedIds(base)
  {
    var all := AttestedIds(base + rows);
    assert all[|base| + j] == rows[j].Id();
    assert forall k :: 0 <= k < |base| ==> all[k] == AttestedIds(base)[k] && all[k] != all[|base| + j];
  }

  lemma {:induction false} IdsOfRows(base: seq<Attestation>)
    ensures forall a :: a in base ==> a.Id() in AttestedIds(base)
  {
    forall a | a in base ensures a.Id() in AttestedIds(base) {
      var k :| 0 <= k < |base| && base[k] == a;
      assert AttestedIds(base)[k] == a.Id();
    }
  }

  lemma {:induction false} SettledIsStable(live: Finding, f: Finding, snap: Snapshot)
    requires OneEach(live.attested, f.attested, live.withdrawn, f.withdrawn) && Judged(f) && Settled(live, f, snap)
    ensures Stable(live, f, snap)
  {
    var once, sites := Onto(live, f, snap), SiteMap(f.survivors);
    var base, rows := KeptFresh(live, f, snap), RowsGrafted(live, f, snap);
    CarriedAgain(live, f, snap);
    RowsGraftedFromPrior(live, f, snap);
    RowsGraftedAgain(live, f, snap);
    IdsOfRows(base);
    WalkStands(base, base, sites, snap);
    WalkAppends(rows, base, base, sites, snap);
    WithdrawnAgain(live.withdrawn, f.withdrawn, AttestedSet(once.attested), sites);
  }

  lemma {:induction false} StableAdoptsNone(live: Finding, f: Finding, snap: Snapshot, key: Key)
    requires OneEach(live.attested, f.attested, live.withdrawn, f.withdrawn) && Judged(f) && Stable(live, f, snap)
    ensures !AdoptsIntoSnapshot(key, AttestedMap(live.attested), AttestedMap(f.attested), SiteMap(f.survivors), snap)
  {
    var once := Onto(live, f, snap);
    OntoAt(live, f, snap, key);
    GraftAt(once.attested, f.attested, once.withdrawn, f.withdrawn, f.survivors, snap, key);
    AttestedLookup(live.attested, key);
  }

  lemma {:induction false} StableForgetsNone(live: Finding, f: Finding, snap: Snapshot, key: Key)
    requires OneEach(live.attested, f.attested, live.withdrawn, f.withdrawn) && Judged(f) && Stable(live, f, snap)
    ensures !ForgetsWithdrawal(key, AttestedMap(live.attested), AttestedMap(f.attested), WithdrawnMap(live.withdrawn), SiteMap(f.survivors), snap)
  {
    var once := Onto(live, f, snap);
    OntoAt(live, f, snap, key);
    OntoAt(once, f, snap, key);
    AttestedLookup(f.attested, key);
  }

  /**
   Re-merging the same fresh record under the same snapshot changes nothing and sheds nothing exactly when no live
   disposition adopts its way into the snapshot and no honoured withdrawal is forgotten.
   */
  lemma {:induction false} RemergeIsIdempotent(live: Finding, f: Finding, snap: Snapshot)
    requires OneEach(live.attested, f.attested, live.withdrawn, f.withdrawn) && Judged(f)
    ensures Stable(live, f, snap) <==> Settled(live, f, snap)
  {
    if Settled(live, f, snap) {
      SettledIsStable(live, f, snap);
    }
    if Stable(live, f, snap) {
      forall key ensures !AdoptsIntoSnapshot(key, AttestedMap(live.attested), AttestedMap(f.attested), SiteMap(f.survivors), snap)
                      && !ForgetsWithdrawal(key, AttestedMap(live.attested), AttestedMap(f.attested), WithdrawnMap(live.withdrawn), SiteMap(f.survivors), snap)
      {
        StableAdoptsNone(live, f, snap, key);
        StableForgetsNone(live, f, snap, key);
      }
    }
  }

  /** One survivor and one disposition of the same mutant, each at its own site. */
  function OneRow(f: Finding, survivorSite: string, site: string): Finding {
    f.(survivors := [Survivor("p", "o", "", survivorSite, "", "", "")], attested := [Attestation("p", "o", "reason", site)], withdrawn := [])
  }

  lemma {:induction false} OneRowMaps(f: Finding, survivorSite: string, site: string)
    ensures SiteMap(OneRow(f, survivorSite, site).survivors) == map[Key("p", "o") := survivorSite]
    ensures AttestedMap(OneRow(f, survivorSite, site).attested) == map[Key("p", "o") := Attestation("p", "o", "reason", site)]
    ensures FirstSite(OneRow(f, survivorSite, site).survivors, Key("p", "o")) == Some(survivorSite)
    ensures FirstAttested(OneRow(f, survivorSite, site).attested, Key("p", "o")) == Some(0)
    ensures CarryAll([Attestation("p", "o", "reason", "")], map[Key("p", "o") := survivorSite]).kept == [Attestation("p", "o", "reason", survivorSite)]
  {
    var row := OneRow(f, survivorSite, site);
    assert row.survivors[..0] == [] && row.attested[..0] == [] && [Attestation("p", "o", "reason", "")][..0] == [];
  }

  lemma {:induction false} NoRows(f: Finding)
    requires f.attested == [] && f.withdrawn == []
    ensures AttestedMap(f.attested) == map[] && WithdrawnMap(f.withdrawn) == map[]
  {
  }

  lemma {:induction false} OneWithdrawal(w: WithdrawnAttestation)
    ensures WithdrawnMap([w]) == map[w.Id() := w]
  {
    assert [w][..0] == [];
  }

  /**
   The case a run meets: a disposition from before sites, which the run carries to its fresh survivor's site, and which
   a session withdraws at the live survivor's.
   */
  lemma {:induction false} MovedWithdrawalBreaksRemerge(f: Finding)
    ensures var key, start := Key("p", "o"), OneRow(f, "moved", "");
            var run := OneRow(f, "site", "site");
            && Withdrawn(start, key, "why").Ok?
            && run.attested == CarryAll(start.attested, SiteMap(run.survivors)).kept
            && !Stable(Withdrawn(start, key, "why").value, run, Some(AttestedMap(start.attested)))
  {
    var key, start, run := Key("p", "o"), OneRow(f, "moved", ""), OneRow(f, "site", "site");
    OneRowMaps(f, "moved", "");
    OneRowMaps(f, "site", "site");
    var live := Withdrawn(start, key, "why").value;
    var w := WithdrawnAttestation("p", "o", "reason", "why", "moved");
    assert live.attested == [] && live.withdrawn == [w];
    OneWithdrawal(w);
    NoRows(live.(withdrawn := []));
    assert "moved"[0] != "site"[0];
    assert ForgetsWithdrawal(key, map[], AttestedMap(run.attested), map[key := w], map[key := "site"], Some(AttestedMap(start.attested)));
    assert !Settled(live, run, Some(AttestedMap(start.attested)));
    NoRows(run.(attested := []));
    RemergeIsIdempotent(live, run, Some(AttestedMap(start.attested)));
  }

  /**
   The other case needs a record no writer here makes: a disposition at a site under a survivor without one, re-attested
   with its own reason and so at no site, while the run's fresh survivor has the site.
   */
  lemma {:induction false} AdoptionBreaksRemerge(f: Finding)
    requires !PolicyIssue(f)
    ensures var key, start := Key("p", "o"), OneRow(f, "", "site");
            var run := OneRow(f, "site", "").(attested := []);
            && Reattested(start, key, "reason") == Ok(OneRow(f, "", ""))
            && !Stable(OneRow(f, "", ""), run, Some(AttestedMap(start.attested)))
  {
    var key, start, run := Key("p", "o"), OneRow(f, "", "site"), OneRow(f, "site", "").(attested := []);
    OneRowMaps(f, "", "site");
    OneRowMaps(f, "", "");
    OneRowMaps(f, "site", "");
    NoRows(run);
    var live := OneRow(f, "", "");
    assert start.attested[0 := Attestation("p", "o", "reason", "")] == live.attested;
    assert AdoptsIntoSnapshot(key, AttestedMap(live.attested), AttestedMap(run.attested), SiteMap(run.survivors), Some(AttestedMap(start.attested)));
    assert !Settled(live, run, Some(AttestedMap(start.attested)));
    RemergeIsIdempotent(live, run, Some(AttestedMap(start.attested)));
  }

  /** A record the document did not hold before is already its own merge, once its withdrawals sit at their survivors. */
  ghost predicate Anchored(f: Finding) {
    && OneEach(f.attested, f.attested, f.withdrawn, f.withdrawn) && Judged(f)
    && forall w :: w in f.withdrawn ==> w.Id() in SiteMap(f.survivors) && w.site == SiteMap(f.survivors)[w.Id()]
  }

  lemma {:induction false} KeepsOwn(carried: seq<Attestation>, live: map<Key, Attestation>,
          retracted: map<Key, WithdrawnAttestation>, sites: map<Key, string>, snap: Snapshot)
    requires forall a :: a in carried ==> a.Id() in live && live[a.Id()].reason == a.reason
    ensures GraftFresh(carried, live, retracted, sites, snap) == carried
  {
    if carried != [] {
      assert carried[|carried| - 1] in carried;
      SplitLast(carried);
      KeepsOwn(carried[..|carried| - 1], live, retracted, sites, snap);
    }
  }

  lemma {:induction false} AnchoredKeeps(f: Finding, snap: Snapshot)
    requires Distinct(AttestedIds(f.attested))
    ensures GraftPrior(f.attested, KeptFresh(f, f, snap), SiteMap(f.survivors), snap) == Graft(f.attested, [])
  {
    AttestedMapExact(f.attested);
    IdsOfRows(f.attested);
    KeepsOwn(f.attested, AttestedMap(f.attested), WithdrawnMap(f.withdrawn), SiteMap(f.survivors), snap);
    WalkStands(f.attested, f.attested, SiteMap(f.survivors), snap);
  }

  lemma {:induction false} AnchoredStands(f: Finding)
    requires Anchored(f)
    ensures forall w :: w in f.withdrawn ==> w.Id() !in AttestedSet(f.attested) && w.Id() in WithdrawnIds(f.withdrawn)
  {
    AttestedMapExact(f.attested);
    AttestedSetExact(f.attested);
    WithdrawnMapExact(f.withdrawn);
    forall w | w in f.withdrawn ensures w.Id() in WithdrawnIds(f.withdrawn) {
      var i :| 0 <= i < |f.withdrawn| && f.withdrawn[i] == w;
      assert WithdrawnIds(f.withdrawn)[i] == w.Id();
    }
  }

  lemma {:induction false} AnchoredIsFixed(f: Finding, snap: Snapshot)
    requires Anchored(f)
    ensures Onto(f, f, snap) == f && GraftOnto(f, f, snap).sheds == []
  {
    var sites, taken := SiteMap(f.survivors), AttestedSet(f.attested);
    AnchoredKeeps(f, snap);
    AnchoredStands(f);
    StandAgain(f.withdrawn, taken, sites);
    AddNothing(f.withdrawn, f.withdrawn, taken, sites);
  }

  // ---- annotation does not depend on the listing ----

  predicate Speaks(p: Finding, f: Finding, key: Key, site: string, v: SelectionVerdict) {
    Comparable(f, p) && VerdictFrom(p, key, site) == Some(v)
  }

  lemma {:induction false} VerdictsExact(f: Finding, peers: seq<Finding>, key: Key, site: string, v: SelectionVerdict)
    ensures v in Verdicts(f, peers, key, site) <==> Spoken(peers, f, key, site, v)
  {
    if peers != [] {
      var n := |peers| - 1;
      VerdictsExact(f, peers[..n], key, site, v);
      SpokenLast(peers, f, key, site, v);
      var said := if !Comparable(f, peers[n]) then [] else match VerdictFrom(peers[n], key, site) case None => [] case Some(w) => [w];
      assert v in said <==> Speaks(peers[n], f, key, site, v);
    }
  }

  ghost predicate Spoken(peers: seq<Finding>, f: Finding, key: Key, site: string, v: SelectionVerdict) {
    exists p :: p in peers && Speaks(p, f, key, site, v)
  }

  lemma {:induction false} SpokenLast(peers: seq<Finding>, f: Finding, key: Key, site: string, v: SelectionVerdict)
    requires peers != []
    ensures Spoken(peers, f, key, site, v)
       <==> Spoken(peers[..|peers| - 1], f, key, site, v) || Speaks(peers[|peers| - 1], f, key, site, v)
  {
    assert peers == peers[..|peers| - 1] + [peers[|peers| - 1]];
    assert forall p :: p in peers <==> p in peers[..|peers| - 1] || p == peers[|peers| - 1];
  }

  ghost predicate DistinctSelections(peers: seq<Finding>) {
    forall i, j :: 0 <= i < j < |peers| ==> peers[i].selection != peers[j].selection
  }

  lemma {:induction false} VerdictsDistinct(f: Finding, peers: seq<Finding>, key: Key, site: string)
    requires DistinctSelections(peers)
    ensures DistinctKeys(Verdicts(f, peers, key, site), BySelection)
  {
    if peers != [] {
      var n := |peers| - 1;
      VerdictsDistinct(f, peers[..n], key, site);
      var init := Verdicts(f, peers[..n], key, site);
      forall i | 0 <= i < |init| ensures init[i].selection != peers[n].selection {
        VerdictsExact(f, peers[..n], key, site, init[i]);
        var p :| p in peers[..n] && Speaks(p, f, key, site, init[i]);
        var k :| 0 <= k < n && peers[k] == p;
      }
    }
  }

  lemma {:induction false} FirstSurvivorBare(xs: seq<Survivor>, ys: seq<Survivor>, key: Key)
    requires |xs| == |ys| && forall i :: 0 <= i < |xs| ==> xs[i].(otherSelection := "") == ys[i].(otherSelection := "")
    ensures FirstSurvivor(xs, key).Some? <==> FirstSurvivor(ys, key).Some?
    ensures FirstSurvivor(xs, key).Some? ==> FirstSurvivor(xs, key).value.site == FirstSurvivor(ys, key).value.site
  {
    if xs != [] {
      FirstSurvivorBare(xs[1..], ys[1..], key);
    }
  }

  lemma {:induction false} SpeaksBare(p: Finding, q: Finding, f: Finding, g: Finding, key: Key, site: string,
          v: SelectionVerdict)
    requires Bare(p) == Bare(q) && Bare(f) == Bare(g)
    ensures Speaks(p, f, key, site, v) <==> Speaks(q, g, key, site, v)
  {
    BareRows(p, q);
    BareRows(f, g);
    FirstSurvivorBare(p.survivors, q.survivors, key);
  }

  /** Two record sets that hold, key by key, the same records up to advisory text. */
  ghost predicate SameBare(r: map<string, Finding>, r': map<string, Finding>) {
    r.Keys == r'.Keys && forall key :: key in r ==> Bare(r[key]) == Bare(r'[key])
  }

  lemma {:induction false} PeersSpeak(doc: seq<Finding>, r: map<string, Finding>, doc': seq<Finding>,
          r': map<string, Finding>, f: Finding, f': Finding, key: Key, site: string, v: SelectionVerdict)
    requires Lists(doc, r) && Lists(doc', r') && SameBare(r, r') && Bare(f) == Bare(f')
    requires v in Verdicts(f, Group(doc, f.symbol), key, site)
    ensures v in Verdicts(f', Group(doc', f.symbol), key, site)
  {
    VerdictsExact(f, Group(doc, f.symbol), key, site, v);
    var p :| p in Group(doc, f.symbol) && Speaks(p, f, key, site, v);
    GroupMembers(doc, f.symbol, p);
    var q := r'[KeyOf(p)];
    BareRows(p, q);
    GroupMembers(doc', f.symbol, q);
    SpeaksBare(p, q, f, f', key, site, v);
    VerdictsExact(f', Group(doc', f.symbol), key, site, v);
  }

  lemma {:induction false} SameText(doc: seq<Finding>, r: map<string, Finding>, doc': seq<Finding>,
          r': map<string, Finding>, f: Finding, f': Finding, s: Survivor, s': Survivor)
    requires Lists(doc, r) && Lists(doc', r') && SameBare(r, r') && Bare(f) == Bare(f')
    requires s.(otherSelection := "") == s'.(otherSelection := "")
    ensures Annotate(s, f, Group(doc, f.symbol)) == Annotate(s', f', Group(doc', f.symbol))
  {
    BareRows(f, f');
    var vs, vs' := Verdicts(f, Group(doc, f.symbol), s.Id(), s.site), Verdicts(f', Group(doc', f.symbol), s.Id(), s.site);
    forall v ensures v in vs <==> v in vs' {
      if v in vs {
        PeersSpeak(doc, r, doc', r', f, f', s.Id(), s.site, v);
      }
      if v in vs' {
        PeersSpeak(doc', r', doc, r, f', f, s.Id(), s.site, v);
      }
    }
    GroupSelectionsDistinct(doc, f.symbol);
    GroupSelectionsDistinct(doc', f.symbol);
    VerdictsDistinct(f, Group(doc, f.symbol), s.Id(), s.site);
    VerdictsDistinct(f', Group(doc', f.symbol), s.Id(), s.site);
    SortByStrict(vs, BySelection);
    SortByStrict(vs', BySelection);
    SortByMembers(vs, BySelection);
    SortByMembers(vs', BySelection);
    SortedUnique(SortBy(vs, BySelection), SortBy(vs', BySelection), BySelection);
  }

  function GroupKeys(doc: seq<Finding>, symbol: string): set<string> {
    if doc == [] then {} else
      var f := doc[|doc| - 1];
      GroupKeys(doc[..|doc| - 1], symbol) + if f.skipped == "" && f.symbol == symbol then {KeyOf(f)} else {}
  }

  lemma {:induction false} GroupKeysExact(doc: seq<Finding>, symbol: string, key: string)
    ensures key in GroupKeys(doc, symbol) <==> exists f :: f in doc && f.skipped == "" && f.symbol == symbol && KeyOf(f) == key
  {
    if doc != [] {
      GroupKeysExact(doc[..|doc| - 1], symbol, key);
      assert doc == doc[..|doc| - 1] + [doc[|doc| - 1]];
    }
  }

  lemma {:induction false} GroupSize(doc: seq<Finding>, symbol: string)
    requires UniqueRecords(doc)
    ensures |Group(doc, symbol)| == |GroupKeys(doc, symbol)|
  {
    if doc != [] {
      var n := |doc| - 1;
      GroupSize(doc[..n], symbol);
      KeyAbsent(doc[..n], symbol, KeyOf(doc[n]));
    }
  }

  lemma {:induction false} KeyAbsent(doc: seq<Finding>, symbol: string, key: string)
    requires forall k :: 0 <= k < |doc| ==> KeyOf(doc[k]) != key
    ensures key !in GroupKeys(doc, symbol)
  {
    if doc != [] {
      KeyAbsent(doc[..|doc| - 1], symbol, key);
    }
  }

  lemma {:induction false} GroupKeysSame(doc: seq<Finding>, r: map<string, Finding>, doc': seq<Finding>,
          r': map<string, Finding>, symbol: string, key: string)
    requires Lists(doc, r) && Lists(doc', r') && SameBare(r, r') && key in GroupKeys(doc, symbol)
    ensures key in GroupKeys(doc', symbol)
  {
    GroupKeysExact(doc, symbol, key);
    var f :| f in doc && f.skipped == "" && f.symbol == symbol && KeyOf(f) == key;
    BareRows(f, r'[key]);
    GroupKeysExact(doc', symbol, key);
  }

  lemma {:induction false} SameGroupSize(doc: seq<Finding>, r: map<string, Finding>, doc': seq<Finding>,
          r': map<string, Finding>, symbol: string)
    requires Lists(doc, r) && Lists(doc', r') && SameBare(r, r')
    ensures |Group(doc, symbol)| == |Group(doc', symbol)|
  {
    GroupSize(doc, symbol);
    GroupSize(doc', symbol);
    forall key ensures key in GroupKeys(doc, symbol) <==> key in GroupKeys(doc', symbol) {
      if key in GroupKeys(doc, symbol) {
        GroupKeysSame(doc, r, doc', r', symbol, key);
      }
      if key in GroupKeys(doc', symbol) {
        GroupKeysSame(doc', r', doc, r, symbol, key);
      }
    }
    assert GroupKeys(doc, symbol) == GroupKeys(doc', symbol);
  }

  /** Annotated records do not depend on how the records are listed, nor on the text they carried in. */
  lemma {:induction false} ListingIndependent(doc: seq<Finding>, r: map<string, Finding>, doc': seq<Finding>,
          r': map<string, Finding>, key: string)
    requires Lists(doc, r) && Lists(doc', r') && SameBare(r, r') && key in r
    requires r'[key] == r[key] || r'[key] == AnnotatedRecord(doc, r[key])
    ensures AnnotatedRecord(doc', r'[key]) == AnnotatedRecord(doc, r[key])
  {
    var f, f' := r[key], r'[key];
    BareRows(f, f');
    SameGroupSize(doc, r, doc', r', f.symbol);
    if f.skipped == "" && |Group(doc, f.symbol)| >= 2 {
      forall i | 0 <= i < |f.survivors|
        ensures Annotate(f.survivors[i], f, Group(doc, f.symbol)) == Annotate(f'.survivors[i], f', Group(doc', f.symbol))
      {
        SameText(doc, r, doc', r', f, f', f.survivors[i], f'.survivors[i]);
      }
      assert AnnotateAll(f.survivors, f, Group(doc, f.symbol)) == AnnotateAll(f'.survivors, f', Group(doc', f.symbol));
    }
  }

  // ---- the whole document ----

  /** Each measured finding is settled over the record it lands on, or lands on none and is anchored. */
  ghost predicate RunSettled(run: seq<Finding>, base: map<string, Finding>, snaps: Snapshots) {
    forall key :: Measured(run, key).Some? ==>
      var f := Measured(run, key).value;
      if key in base then
        OneEach(base[key].attested, f.attested, base[key].withdrawn, f.withdrawn) && Judged(f) && Settled(base[key], f, SnapshotOf(snaps, key))
      else Anchored(f)
  }

  lemma {:induction false} NoSheds(run: seq<Finding>, base: map<string, Finding>, snaps: Snapshots)
    requires OnePerKey(run)
    requires forall f :: f in run && f.skipped == "" && KeyOf(f) in base ==> GraftOnto(base[KeyOf(f)], f, SnapshotOf(snaps, KeyOf(f))).sheds == []
    ensures MergeInto(run, base, snaps).sheds == []
  {
    if run != [] {
      var init, f := run[..|run| - 1], run[|run| - 1];
      NoSheds(init, base, snaps);
      if f.skipped == "" {
        NotMeasured(init, KeyOf(f));
        MergeIntoAt(init, base, snaps, KeyOf(f));
      }
    }
  }

  lemma {:induction false} MeasuredIs(run: seq<Finding>, f: Finding)
    requires OnePerKey(run) && f in run && f.skipped == ""
    ensures Measured(run, KeyOf(f)) == Some(f)
  {
    MeasuredFinds(run, KeyOf(f));
    if Measured(run, KeyOf(f)).Some? {
      var i :| 0 <= i < |run| && run[i] == f;
      var j :| 0 <= j < |run| && run[j] == Measured(run, KeyOf(f)).value;
      assert i == j;
    }
  }

  /** What the second merge finds and leaves at one key. */
  lemma {:induction false} RemergedAt(run: seq<Finding>, base: map<string, Finding>, snaps: Snapshots,
          again: map<string, Finding>, key: string)
    requires OnePerKey(run) && RunSettled(run, base, snaps)
    requires SameBare(MergeInto(run, base, snaps).records, again)
    ensures var once, twice := MergeInto(run, base, snaps).records, MergeInto(run, again, snaps).records;
            && (key in once <==> key in twice)
            && (key in once ==> twice[key] == if Measured(run, key).Some? then once[key] else again[key])
    ensures Measured(run, key).Some? ==>
              key in again && GraftOnto(again[key], Measured(run, key).value, SnapshotOf(snaps, key)).sheds == []
  {
    MergeIntoAt(run, base, snaps, key);
    MergeIntoAt(run, again, snaps, key);
    MeasuredFinds(run, key);
    if Measured(run, key).Some? {
      var f, snap := Measured(run, key).value, SnapshotOf(snaps, key);
      var once := MergeInto(run, base, snaps).records[key];
      BareRows(once, again[key]);
      if key in base {
        RemergeIsIdempotent(base[key], f, snap);
      } else {
        AnchoredIsFixed(f, snap);
      }
    }
  }

  /**
   Re-merging a settled run into the document it produced sheds nothing and leaves every annotated record exactly as
   it was, whatever order the merges listed their records in.
   */
  lemma {:induction false} RemergeDocument(run: seq<Finding>, base: map<string, Finding>, snaps: Snapshots,
          listing: seq<Finding>, relisting: seq<Finding>)
    requires OnePerKey(run) && RunSettled(run, base, snaps) && Keyed(base)
    requires Lists(listing, MergeInto(run, base, snaps).records)
    requires Lists(relisting, MergeInto(run, ByKey(Annotated(listing)), snaps).records)
    ensures MergeInto(run, ByKey(Annotated(listing)), snaps).sheds == []
    ensures forall f :: f in Annotated(relisting) <==> f in Annotated(listing)
  {
    var once, again := MergeInto(run, base, snaps).records, ByKey(Annotated(listing));
    MergeIntoKeyed(run, base, snaps);
    AnnotatedByKey(listing, once);
    RemergeSheds(run, base, snaps, again);
    var twice := MergeInto(run, again, snaps).records;
    forall key ensures Returned(key, once, twice, again) {
      RemergedAt(run, base, snaps, again, key);
    }
    ReturnedDocument(listing, once, relisting, twice, again);
  }

  lemma {:induction false} RemergeSheds(run: seq<Finding>, base: map<string, Finding>, snaps: Snapshots,
          again: map<string, Finding>)
    requires OnePerKey(run) && RunSettled(run, base, snaps)
    requires SameBare(MergeInto(run, base, snaps).records, again)
    ensures MergeInto(run, again, snaps).sheds == []
  {
    forall f | f in run && f.skipped == "" && KeyOf(f) in again
      ensures GraftOnto(again[KeyOf(f)], f, SnapshotOf(snaps, KeyOf(f))).sheds == []
    {
      MeasuredIs(run, f);
      RemergedAt(run, base, snaps, again, KeyOf(f));
    }
    NoSheds(run, again, snaps);
  }

  /** A second merge leaves a key's record as it was, or as the first merge's annotation made it. */
  predicate Returned(key: string, once: map<string, Finding>, twice: map<string, Finding>,
          again: map<string, Finding>) {
    && (key in once <==> key in twice) && (key in once <==> key in again)
    && (key in once ==> twice[key] == once[key] || twice[key] == again[key])
  }

  lemma {:induction false} ReturnedBare(once: map<string, Finding>, twice: map<string, Finding>,
          again: map<string, Finding>)
    requires SameBare(once, again) && forall key :: Returned(key, once, twice, again)
    ensures SameBare(once, twice)
  {
    forall key ensures (key in once <==> key in twice) && (key in once ==> Bare(once[key]) == Bare(twice[key])) {
      assert Returned(key, once, twice, again);
    }
    assert once.Keys == twice.Keys;
  }

  lemma {:induction false} SameAnnotated(listing: seq<Finding>, r: map<string, Finding>, relisting: seq<Finding>,
          r': map<string, Finding>)
    requires Lists(listing, r) && Lists(relisting, r') && r.Keys == r'.Keys
    requires forall key :: key in r ==> AnnotatedRecord(relisting, r'[key]) == AnnotatedRecord(listing, r[key])
    ensures forall f :: f in Annotated(relisting) <==> f in Annotated(listing)
  {
    forall f ensures f in Annotated(relisting) <==> f in Annotated(listing) {
      if f in Annotated(relisting) {
        Relisted(relisting, r', listing, r, f);
      }
      if f in Annotated(listing) {
        Relisted(listing, r, relisting, r', f);
      }
    }
  }

  lemma {:induction false} ReturnedDocument(listing: seq<Finding>, once: map<string, Finding>, relisting: seq<Finding>,
          twice: map<string, Finding>, again: map<string, Finding>)
    requires Lists(listing, once) && Lists(relisting, twice) && Keyed(once) && SameBare(once, again)
    requires forall key :: key in once ==> again[key] == AnnotatedRecord(listing, once[key])
    requires forall key :: Returned(key, once, twice, again)
    ensures forall f :: f in Annotated(relisting) <==> f in Annotated(listing)
  {
    ReturnedBare(once, twice, again);
    forall key | key in once ensures AnnotatedRecord(relisting, twice[key]) == AnnotatedRecord(listing, once[key]) {
      assert Returned(key, once, twice, again);
      ListingIndependent(listing, once, relisting, twice, key);
    }
    SameAnnotated(listing, once, relisting, twice);
  }

  /** The annotated document keyed again: the same keys, each with its annotated record. */
  lemma {:induction false} AnnotatedByKey(listing: seq<Finding>, r: map<string, Finding>)
    requires Lists(listing, r) && Keyed(r)
    ensures SameBare(r, ByKey(Annotated(listing)))
    ensures forall key :: key in r ==> ByKey(Annotated(listing))[key] == AnnotatedRecord(listing, r[key])
  {
    var keyed := ByKey(Annotated(listing));
    AnnotatedUnique(listing);
    ByKeyUnique(Annotated(listing));
    forall key | key in r ensures key in keyed && keyed[key] == AnnotatedRecord(listing, r[key]) && Bare(r[key]) == Bare(keyed[key]) {
      KeyedAgain(listing, r, key);
    }
    forall key | key in keyed ensures key in r {
      AnnotatedFrom(listing, r, key);
    }
    assert r.Keys == keyed.Keys;
  }

  lemma {:induction false} AnnotatedKeys(listing: seq<Finding>, i: nat)
    requires i < |listing|
    ensures KeyOf(Annotated(listing)[i]) == KeyOf(listing[i])
  {
    AnnotatedIsBareEqual(listing, listing[i]);
  }

  lemma {:induction false} AnnotatedUnique(listing: seq<Finding>)
    requires UniqueRecords(listing)
    ensures UniqueRecords(Annotated(listing))
  {
    forall i, j | 0 <= i < j < |listing| ensures KeyOf(Annotated(listing)[i]) != KeyOf(Annotated(listing)[j]) {
      AnnotatedKeys(listing, i);
      AnnotatedKeys(listing, j);
    }
  }

  lemma {:induction false} MemberAnnotated(listing: seq<Finding>, f: Finding)
    requires f in listing
    ensures AnnotatedRecord(listing, f) in Annotated(listing)
  {
    var i :| 0 <= i < |listing| && listing[i] == f;
    assert Annotated(listing)[i] == AnnotatedRecord(listing, f);
  }

  lemma {:induction false} MemberFrom(listing: seq<Finding>, g: Finding) returns (f: Finding)
    requires g in Annotated(listing)
    ensures f in listing && g == AnnotatedRecord(listing, f)
  {
    var i :| 0 <= i < |listing| && Annotated(listing)[i] == g;
    f := listing[i];
  }

  lemma {:induction false} KeyedAgain(listing: seq<Finding>, r: map<string, Finding>, key: string)
    requires Lists(listing, r) && Keyed(r) && key in r && Lists(Annotated(listing), ByKey(Annotated(listing)))
    ensures key in ByKey(Annotated(listing)) && ByKey(Annotated(listing))[key] == AnnotatedRecord(listing, r[key])
    ensures Bare(r[key]) == Bare(ByKey(Annotated(listing))[key])
  {
    var i :| 0 <= i < |listing| && listing[i] == r[key];
    AnnotatedIsBareEqual(listing, listing[i]);
    assert Annotated(listing)[i] in Annotated(listing);
  }

  lemma {:induction false} AnnotatedFrom(listing: seq<Finding>, r: map<string, Finding>, key: string)
    requires Lists(listing, r) && key in ByKey(Annotated(listing))
    ensures key in r
  {
    ByKeyKeyed(Annotated(listing));
    var f := MemberFrom(listing, ByKey(Annotated(listing))[key]);
    AnnotatedIsBareEqual(listing, f);
  }

  lemma {:induction false} Relisted(listing: seq<Finding>, r: map<string, Finding>, relisting: seq<Finding>,
          r': map<string, Finding>, g: Finding)
    requires Lists(listing, r) && Lists(relisting, r') && r.Keys == r'.Keys && g in Annotated(listing)
    requires forall key :: key in r ==> AnnotatedRecord(relisting, r'[key]) == AnnotatedRecord(listing, r[key])
    ensures g in Annotated(relisting)
  {
    var f := MemberFrom(listing, g);
    MemberAnnotated(relisting, r'[KeyOf(f)]);
  }
}
