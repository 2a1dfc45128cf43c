/**
 What a graft decides, mutant by mutant: the fold over three lists is a pointwise choice, so every
 statement about concurrent dispositions reduces to one mutant's facts.
 */
module Grafting {
  import opened Wrappers
  import opened Records
  import opened Dispositions

  // ---- one mutant's fate ----

  /** A live disposition nothing carried decides. */
  function JoinAt(a: Attestation, sites: map<Key, string>, snap: Snapshot): Option<Attestation> {
    match JudgePrior(a, {}, sites, snap)
    case Grafts(b) => Some(b)
    case _ => None
  }

  function AttestedAt(key: Key, live: map<Key, Attestation>, carried: map<Key, Attestation>,
          retracted: map<Key, WithdrawnAttestation>, sites: map<Key, string>, snap: Snapshot): Option<Attestation>
  {
    var kept := if key in carried then CarryFresh(carried[key], live, retracted, sites, snap) else None;
    if kept.Some? then kept else if key in live then JoinAt(live[key], sites, snap) else None
  }

  /** A withdrawal stands over an unattested survivor at its site, the live document's before the fresh record's. */
  function StandsAt(key: Key, ws: map<Key, WithdrawnAttestation>, attested: bool,
          sites: map<Key, string>): Option<WithdrawnAttestation> {
    if key in ws && !attested && key in sites && (ws[key].site == "" || ws[key].site == sites[key])
    then Some(ws[key].(site := sites[key])) else None
  }

  function WithdrawnAt(key: Key, retracted: map<Key, WithdrawnAttestation>,
          freshRetracted: map<Key, WithdrawnAttestation>, attested: bool,
          sites: map<Key, string>): Option<WithdrawnAttestation>
  {
    var standing := StandsAt(key, retracted, attested, sites);
    if standing.Some? then standing else StandsAt(key, freshRetracted, attested, sites)
  }

  predicate ShedAt(key: Key, live: map<Key, Attestation>, carried: map<Key, Attestation>,
          retracted: map<Key, WithdrawnAttestation>, sites: map<Key, string>, snap: Snapshot)
  {
    && key in live
    && (key in carried ==> CarryFresh(carried[key], live, retracted, sites, snap).None?)
    && JudgePrior(live[key], {}, sites, snap).Sheds?
  }

  // ---- the folds decide exactly that, at any one mutant ----

  lemma {:induction false} AttestedAppend(xs: seq<Attestation>, a: Attestation, key: Key)
    ensures AttestedIds(xs + [a]) == AttestedIds(xs) + [a.Id()]
    ensures Lookup(AttestedMap(xs + [a]), key) == if key == a.Id() then Some(a) else Lookup(AttestedMap(xs), key)
  {
    assert (xs + [a])[..|xs|] == xs;
  }

  lemma {:induction false} WithdrawnAppend(xs: seq<WithdrawnAttestation>, w: WithdrawnAttestation, key: Key)
    ensures WithdrawnIds(xs + [w]) == WithdrawnIds(xs) + [w.Id()]
    ensures Lookup(WithdrawnMap(xs + [w]), key) == if key == w.Id() then Some(w) else Lookup(WithdrawnMap(xs), key)
  {
    assert (xs + [w])[..|xs|] == xs;
  }

  lemma {:induction false} AttestedLookup(xs: seq<Attestation>, key: Key)
    ensures Lookup(AttestedMap(xs), key).Some? <==> key in AttestedIds(xs)
    ensures key in AttestedSet(xs) <==> key in AttestedIds(xs)
    ensures Lookup(AttestedMap(xs), key).Some? ==> AttestedMap(xs)[key].Id() == key
  {
    AttestedMapExact(xs);
    AttestedSetExact(xs);
  }

  lemma {:induction false} WithdrawnLookup(xs: seq<WithdrawnAttestation>, key: Key)
    ensures Lookup(WithdrawnMap(xs), key).Some? <==> key in WithdrawnIds(xs)
    ensures Lookup(WithdrawnMap(xs), key).Some? ==> WithdrawnMap(xs)[key].Id() == key
  {
    WithdrawnMapExact(xs);
  }

  lemma {:induction false} DistinctInit(ids: seq<Key>, key: Key)
    requires Distinct(ids + [key])
    ensures Distinct(ids) && key !in ids
  {
    var all := ids + [key];
    assert forall i :: 0 <= i < |ids| ==> all[i] == ids[i] && all[i] != all[|ids|];
  }

  lemma {:induction false} DistinctAppend(ids: seq<Key>, key: Key)
    requires Distinct(ids) && key !in ids
    ensures Distinct(ids + [key])
  {
  }

  lemma {:induction false} SplitLast<T>(xs: seq<T>)
    requires xs != []
    ensures xs == xs[..|xs| - 1] + [xs[|xs| - 1]]
  {
  }

  lemma {:induction false} AppendKeptAt(out: seq<Attestation>, kept: Option<Attestation>, key: Key)
    ensures Lookup(AttestedMap(AppendKept(out, kept)), key)
         == if kept.Some? && kept.value.Id() == key then kept else Lookup(AttestedMap(out), key)
  {
    if kept.Some? {
      AttestedAppend(out, kept.value, key);
    }
  }

  lemma {:induction false} AppendKeptDistinct(out: seq<Attestation>, kept: Option<Attestation>, key: Key)
    requires Distinct(AttestedIds(out)) && key !in AttestedIds(out) && (kept.Some? ==> kept.value.Id() == key)
    ensures Distinct(AttestedIds(AppendKept(out, kept)))
  {
    if kept.Some? {
      AttestedAppend(out, kept.value, key);
      DistinctAppend(AttestedIds(out), key);
    }
  }

  lemma {:induction false} CarryKeepsId(a: Attestation, live: map<Key, Attestation>,
          retracted: map<Key, WithdrawnAttestation>, sites: map<Key, string>, snap: Snapshot)
    ensures CarryFresh(a, live, retracted, sites, snap).Some? ==> CarryFresh(a, live, retracted, sites, snap).value.Id() == a.Id()
  {
  }

  lemma {:induction false} KeepNextAt(init: seq<Attestation>, last: Attestation, out: seq<Attestation>,
          live: map<Key, Attestation>, retracted: map<Key, WithdrawnAttestation>, sites: map<Key, string>,
          snap: Snapshot, key: Key)
    requires last.Id() !in AttestedIds(init)
    requires Lookup(AttestedMap(out), key)
          == if key in AttestedMap(init) then CarryFresh(AttestedMap(init)[key], live, retracted, sites, snap) else None
    ensures Lookup(AttestedMap(AppendKept(out, CarryFresh(last, live, retracted, sites, snap))), key)
         == if key in AttestedMap(init + [last]) then CarryFresh(AttestedMap(init + [last])[key], live, retracted, sites, snap) else None
  {
    AttestedAppend(init, last, key);
    AttestedLookup(init, key);
    CarryKeepsId(last, live, retracted, sites, snap);
    AppendKeptAt(out, CarryFresh(last, live, retracted, sites, snap), key);
  }

  lemma {:induction false} GraftFreshAt(carried: seq<Attestation>, live: map<Key, Attestation>,
          retracted: map<Key, WithdrawnAttestation>, sites: map<Key, string>, snap: Snapshot, key: Key)
    requires Distinct(AttestedIds(carried))
    ensures Lookup(AttestedMap(GraftFresh(carried, live, retracted, sites, snap)), key)
         == if key in AttestedMap(carried) then CarryFresh(AttestedMap(carried)[key], live, retracted, sites, snap) else None
  {
    if carried != [] {
      var init, last := carried[..|carried| - 1], carried[|carried| - 1];
      SplitLast(carried);
      AttestedAppend(init, last, key);
      DistinctInit(AttestedIds(init), last.Id());
      GraftFreshAt(init, live, retracted, sites, snap, key);
      KeepNextAt(init, last, GraftFresh(init, live, retracted, sites, snap), live, retracted, sites, snap, key);
    }
  }

  lemma {:induction false} GraftFreshDistinct(carried: seq<Attestation>, live: map<Key, Attestation>,
          retracted: map<Key, WithdrawnAttestation>, sites: map<Key, string>, snap: Snapshot)
    requires Distinct(AttestedIds(carried))
    ensures Distinct(AttestedIds(GraftFresh(carried, live, retracted, sites, snap)))
  {
    if carried != [] {
      var init, last := carried[..|carried| - 1], carried[|carried| - 1];
      SplitLast(carried);
      AttestedAppend(init, last, last.Id());
      DistinctInit(AttestedIds(init), last.Id());
      GraftFreshDistinct(init, live, retracted, sites, snap);
      GraftFreshAt(init, live, retracted, sites, snap, last.Id());
      AttestedLookup(init, last.Id());
      var out := GraftFresh(init, live, retracted, sites, snap);
      AttestedLookup(out, last.Id());
      AppendKeptDistinct(out, CarryFresh(last, live, retracted, sites, snap), last.Id());
    }
  }

  lemma {:induction false} ShedAppend(sheds: seq<AttestationShed>, d: AttestationShed, key: Key)
    ensures ShedIds(sheds + [d]) == ShedIds(sheds) + [d.Id()]
    ensures key in ShedIds(sheds + [d]) <==> key in ShedIds(sheds) || key == d.Id()
  {
  }

  /** One live disposition through the second walk, seen at one mutant. */
  lemma {:induction false} JoinOneAt(a: Attestation, g: Graft, sites: map<Key, string>, snap: Snapshot, key: Key)
    ensures var g' := JoinOne(a, g, AttestedSet(g.attested), sites, snap);
            var open := a.Id() == key && Lookup(AttestedMap(g.attested), key).None?;
            && Lookup(AttestedMap(g'.attested), key) == (if open then JoinAt(a, sites, snap) else Lookup(AttestedMap(g.attested), key))
            && (key in ShedIds(g'.sheds) <==> key in ShedIds(g.sheds) || (open && JudgePrior(a, {}, sites, snap).Sheds?))
  {
    AttestedLookup(g.attested, a.Id());
    var j := JudgePrior(a, AttestedSet(g.attested), sites, snap);
    JudgedAgain(a, AttestedSet(g.attested), sites, snap);
    if j.Sheds? {
      ShedAppend(g.sheds, AttestationShed("", a.position, a.operator, j.cause), key);
    } else if j.Grafts? {
      AttestedAppend(g.attested, j.a, key);
    }
  }

  lemma {:induction false} JudgedAgain(a: Attestation, taken: set<Key>, sites: map<Key, string>, snap: Snapshot)
    ensures JudgePrior(a, taken, sites, snap) == if a.Id() in taken then Standing else JudgePrior(a, {}, sites, snap)
    ensures JudgePrior(a, taken, sites, snap).Grafts? ==> JudgePrior(a, taken, sites, snap).a.Id() == a.Id()
    ensures !JudgePrior(a, {}, sites, snap).Standing?
  {
  }

  lemma {:induction false} JoinOneDistinct(a: Attestation, g: Graft, sites: map<Key, string>, snap: Snapshot)
    requires Distinct(AttestedIds(g.attested)) && Distinct(ShedIds(g.sheds)) && a.Id() !in ShedIds(g.sheds)
    ensures var g' := JoinOne(a, g, AttestedSet(g.attested), sites, snap); Distinct(AttestedIds(g'.attested)) && Distinct(ShedIds(g'.sheds))
  {
    AttestedLookup(g.attested, a.Id());
    var j := JudgePrior(a, AttestedSet(g.attested), sites, snap);
    JudgedAgain(a, AttestedSet(g.attested), sites, snap);
    if j.Sheds? {
      ShedAppend(g.sheds, AttestationShed("", a.position, a.operator, j.cause), a.Id());
      DistinctAppend(ShedIds(g.sheds), a.Id());
    } else if j.Grafts? {
      AttestedAppend(g.attested, j.a, a.Id());
      DistinctAppend(AttestedIds(g.attested), a.Id());
    }
  }

  lemma {:induction false} GraftPriorAt(prior: seq<Attestation>, base: seq<Attestation>, sites: map<Key, string>,
          snap: Snapshot, key: Key)
    requires Distinct(AttestedIds(prior))
    ensures Lookup(AttestedMap(GraftPrior(prior, base, sites, snap).attested), key)
         == if key in AttestedMap(base) then Some(AttestedMap(base)[key])
            else if key in AttestedMap(prior) then JoinAt(AttestedMap(prior)[key], sites, snap) else None
    ensures key in ShedIds(GraftPrior(prior, base, sites, snap).sheds) <==>
              key in AttestedMap(prior) && key !in AttestedMap(base) && JudgePrior(AttestedMap(prior)[key], {}, sites, snap).Sheds?
  {
    if prior != [] {
      var init, a := prior[..|prior| - 1], prior[|prior| - 1];
      SplitLast(prior);
      AttestedAppend(init, a, key);
      DistinctInit(AttestedIds(init), a.Id());
      GraftPriorAt(init, base, sites, snap, key);
      AttestedLookup(init, key);
      JoinOneAt(a, GraftPrior(init, base, sites, snap), sites, snap, key);
    }
  }

  lemma {:induction false} GraftPriorDistinct(prior: seq<Attestation>, base: seq<Attestation>, sites: map<Key, string>,
          snap: Snapshot)
    requires Distinct(AttestedIds(prior)) && Distinct(AttestedIds(base))
    ensures Distinct(AttestedIds(GraftPrior(prior, base, sites, snap).attested))
    ensures Distinct(ShedIds(GraftPrior(prior, base, sites, snap).sheds))
  {
    if prior != [] {
      var init, a := prior[..|prior| - 1], prior[|prior| - 1];
      SplitLast(prior);
      AttestedAppend(init, a, a.Id());
      DistinctInit(AttestedIds(init), a.Id());
      GraftPriorDistinct(init, base, sites, snap);
      GraftPriorAt(init, base, sites, snap, a.Id());
      AttestedLookup(init, a.Id());
      JoinOneDistinct(a, GraftPrior(init, base, sites, snap), sites, snap);
    }
  }

  /** A withdrawal stands alone over an unattested survivor at its site. */
  function StandOne(w: WithdrawnAttestation, attested: bool, sites: map<Key, string>): Option<WithdrawnAttestation> {
    if !attested && w.Id() in sites && (w.site == "" || w.site == sites[w.Id()]) then Some(w.(site := sites[w.Id()])) else None
  }

  lemma {:induction false} AddOneAt(w: WithdrawnAttestation, out: seq<WithdrawnAttestation>, attested: set<Key>,
          sites: map<Key, string>, key: Key)
    ensures Lookup(WithdrawnMap(AddOne(w, out, attested, sites)), key)
         == if Lookup(WithdrawnMap(out), key).None? && key == w.Id() then StandOne(w, key in attested, sites) else Lookup(WithdrawnMap(out), key)
  {
    WithdrawnLookup(out, w.Id());
    if w.Id() in sites {
      WithdrawnAppend(out, w.(site := sites[w.Id()]), key);
    }
  }

  lemma {:induction false} AddOneDistinct(w: WithdrawnAttestation, out: seq<WithdrawnAttestation>, attested: set<Key>,
          sites: map<Key, string>)
    requires Distinct(WithdrawnIds(out))
    ensures Distinct(WithdrawnIds(AddOne(w, out, attested, sites)))
  {
    if w.Id() in sites {
      WithdrawnAppend(out, w.(site := sites[w.Id()]), w.Id());
    }
  }

  lemma {:induction false} AddWithdrawnAt(ws: seq<WithdrawnAttestation>, acc: seq<WithdrawnAttestation>,
          attested: set<Key>, sites: map<Key, string>, key: Key)
    requires Distinct(WithdrawnIds(ws))
    ensures Lookup(WithdrawnMap(AddWithdrawn(ws, acc, attested, sites)), key)
         == if key in WithdrawnMap(acc) then Some(WithdrawnMap(acc)[key]) else StandsAt(key, WithdrawnMap(ws), key in attested, sites)
  {
    if ws != [] {
      var init, w := ws[..|ws| - 1], ws[|ws| - 1];
      SplitLast(ws);
      WithdrawnAppend(init, w, key);
      DistinctInit(WithdrawnIds(init), w.Id());
      AddWithdrawnAt(init, acc, attested, sites, key);
      WithdrawnLookup(init, key);
      AddOneAt(w, AddWithdrawn(init, acc, attested, sites), attested, sites, key);
    }
  }

  lemma {:induction false} AddWithdrawnDistinct(ws: seq<WithdrawnAttestation>, acc: seq<WithdrawnAttestation>,
          attested: set<Key>, sites: map<Key, string>)
    requires Distinct(WithdrawnIds(acc))
    ensures Distinct(WithdrawnIds(AddWithdrawn(ws, acc, attested, sites)))
  {
    if ws != [] {
      AddWithdrawnDistinct(ws[..|ws| - 1], acc, attested, sites);
      AddOneDistinct(ws[|ws| - 1], AddWithdrawn(ws[..|ws| - 1], acc, attested, sites), attested, sites);
    }
  }

  /** The four disposition lists of a graft name each mutant at most once: the validator's rule. */
  ghost predicate OneEach(prior: seq<Attestation>, carried: seq<Attestation>, priorWithdrawn: seq<WithdrawnAttestation>,
          freshWithdrawn: seq<WithdrawnAttestation>)
  {
    && Distinct(AttestedIds(prior)) && Distinct(AttestedIds(carried))
    && Distinct(WithdrawnIds(priorWithdrawn)) && Distinct(WithdrawnIds(freshWithdrawn))
  }

  /** The graft at one mutant: attested, withdrawn or shed exactly as the pointwise choice says. */
  lemma {:induction false} GraftAt(prior: seq<Attestation>, carried: seq<Attestation>,
          priorWithdrawn: seq<WithdrawnAttestation>, freshWithdrawn: seq<WithdrawnAttestation>,
          survivors: seq<Survivor>, snap: Snapshot, key: Key)
    requires OneEach(prior, carried, priorWithdrawn, freshWithdrawn)
    ensures var g := GraftDispositions(prior, carried, priorWithdrawn, freshWithdrawn, survivors, snap);
            var live, kept, retracted, sites := AttestedMap(prior), AttestedMap(carried), WithdrawnMap(priorWithdrawn), SiteMap(survivors);
            && Lookup(AttestedMap(g.attested), key) == AttestedAt(key, live, kept, retracted, sites, snap)
            && Lookup(WithdrawnMap(g.withdrawn), key)
                 == WithdrawnAt(key, retracted, WithdrawnMap(freshWithdrawn), key in AttestedMap(g.attested), sites)
            && (key in ShedIds(g.sheds) <==> ShedAt(key, live, kept, retracted, sites, snap))
  {
    var sites, live, retracted := SiteMap(survivors), AttestedMap(prior), WithdrawnMap(priorWithdrawn);
    var base := GraftFresh(carried, live, retracted, sites, snap);
    GraftFreshAt(carried, live, retracted, sites, snap, key);
    GraftPriorAt(prior, base, sites, snap, key);
    var g := GraftPrior(prior, base, sites, snap);
    AttestedLookup(g.attested, key);
    var taken := AttestedSet(g.attested);
    AddWithdrawnAt(priorWithdrawn, [], taken, sites, key);
    AddWithdrawnAt(freshWithdrawn, AddWithdrawn(priorWithdrawn, [], taken, sites), taken, sites, key);
  }

  lemma {:induction false} GraftDistinct(prior: seq<Attestation>, carried: seq<Attestation>,
          priorWithdrawn: seq<WithdrawnAttestation>, freshWithdrawn: seq<WithdrawnAttestation>,
          survivors: seq<Survivor>, snap: Snapshot)
    requires OneEach(prior, carried, priorWithdrawn, freshWithdrawn)
    ensures var g := GraftDispositions(prior, carried, priorWithdrawn, freshWithdrawn, survivors, snap);
            Distinct(AttestedIds(g.attested)) && Distinct(WithdrawnIds(g.withdrawn)) && Distinct(ShedIds(g.sheds))
  {
    var sites, live, retracted := SiteMap(survivors), AttestedMap(prior), WithdrawnMap(priorWithdrawn);
    var base := GraftFresh(carried, live, retracted, sites, snap);
    GraftFreshDistinct(carried, live, retracted, sites, snap);
    GraftPriorDistinct(prior, base, sites, snap);
    var taken := AttestedSet(GraftPrior(prior, base, sites, snap).attested);
    AddWithdrawnDistinct(priorWithdrawn, [], taken, sites);
    AddWithdrawnDistinct(freshWithdrawn, AddWithdrawn(priorWithdrawn, [], taken, sites), taken, sites);
  }
}
