/**
 Whole runs over one live record: other sessions attest, re-attest and withdraw between a run's snapshot,
 its incremental commit and its final merge, in any interleaving and with any number of merges.
 */
module DispositionRuns {
  import opened Wrappers
  import opened Records
  import opened Dispositions
  import opened Grafting

  datatype Verb = DoAttest | DoReattest | DoWithdraw

  datatype Event = Edit(verb: Verb, mutant: Key, reason: string) | Merge

  function Edited(f: Finding, verb: Verb, mutant: Key, reason: string): Result<Finding, Refusal> {
    match verb
    case DoAttest => Attested(f, mutant, reason)
    case DoReattest => Reattested(f, mutant, reason)
    case DoWithdraw => Withdrawn(f, mutant, reason)
  }

  /** The record the merge writes: the run's fresh record with the live dispositions grafted on. */
  function MergedOnto(live: Finding, run: Finding, snap: Snapshot): Finding {
    var g := GraftDispositions(live.attested, run.attested, live.withdrawn, run.withdrawn, run.survivors, snap);
    run.(attested := g.attested, withdrawn := g.withdrawn)
  }

  function Step(live: Finding, e: Event, run: Finding, snap: Snapshot): Finding {
    match e
    case Merge => MergedOnto(live, run, snap)
    case Edit(verb, mutant, reason) =>
      match Edited(live, verb, mutant, reason)
      case Ok(f) => f
      case Err(_) => live
  }

  function Play(start: Finding, events: seq<Event>, run: Finding, snap: Snapshot): Finding {
    if events == [] then start
    else Step(Play(start, events[..|events| - 1], run, snap), events[|events| - 1], run, snap)
  }

  /** Each list of a record names a mutant at most once. */
  ghost predicate Tidy(f: Finding) {
    Distinct(AttestedIds(f.attested)) && Distinct(WithdrawnIds(f.withdrawn)) && Distinct(SurvivorIds(f.survivors))
  }

  /** A run's fresh record carries only dispositions of its snapshot, with their reasons, each on a fresh survivor. */
  ghost predicate CarriedFrom(run: Finding, snap: Snapshot) {
    && snap.Some?
    && forall a :: a in run.attested ==>
         a.Id() in snap.value && snap.value[a.Id()].reason == a.reason && a.Id() in SiteMap(run.survivors)
  }

  ghost predicate RunOver(start: Finding, run: Finding, snap: Snapshot) {
    Tidy(start) && Tidy(run) && snap == Some(AttestedMap(start.attested)) && CarriedFrom(run, snap)
  }

  predicate Untouched(events: seq<Event>, mutant: Key) {
    forall e :: e in events && e.Edit? ==> e.mutant != mutant
  }

  // ---- what an edit does to one mutant ----

  lemma {:induction false} WithoutWithdrawnAt(xs: seq<WithdrawnAttestation>, gone: Key, key: Key)
    requires Distinct(WithdrawnIds(xs))
    ensures Distinct(WithdrawnIds(WithoutWithdrawn(xs, gone)))
    ensures Lookup(WithdrawnMap(WithoutWithdrawn(xs, gone)), key) == if key == gone then None else Lookup(WithdrawnMap(xs), key)
  {
    if xs != [] {
      var init, w := xs[..|xs| - 1], xs[|xs| - 1];
      SplitLast(xs);
      WithdrawnAppend(init, w, key);
      DistinctInit(WithdrawnIds(init), w.Id());
      WithoutWithdrawnAt(init, gone, key);
      WithoutWithdrawnAt(init, gone, w.Id());
      var out := WithoutWithdrawn(init, gone);
      WithdrawnLookup(out, w.Id());
      WithdrawnLookup(init, w.Id());
      if w.Id() != gone {
        WithdrawnAppend(out, w, key);
        DistinctAppend(WithdrawnIds(out), w.Id());
      } else {
        assert WithoutWithdrawn(xs, gone) == out;
      }
    }
  }

  lemma {:induction false} AppendWithdrawalAt(xs: seq<WithdrawnAttestation>, w: WithdrawnAttestation, key: Key)
    requires Distinct(WithdrawnIds(xs))
    ensures Distinct(WithdrawnIds(WithoutWithdrawn(xs, w.Id()) + [w]))
    ensures Lookup(WithdrawnMap(WithoutWithdrawn(xs, w.Id()) + [w]), key) == if key == w.Id() then Some(w) else Lookup(WithdrawnMap(xs), key)
  {
    WithoutWithdrawnAt(xs, w.Id(), key);
    WithoutWithdrawnAt(xs, w.Id(), w.Id());
    var rest := WithoutWithdrawn(xs, w.Id());
    WithdrawnLookup(rest, w.Id());
    WithdrawnAppend(rest, w, key);
    DistinctAppend(WithdrawnIds(rest), w.Id());
  }

  lemma {:induction false} RowLookup(xs: seq<Attestation>, p: nat)
    requires p < |xs| && Distinct(AttestedIds(xs))
    ensures Lookup(AttestedMap(xs), xs[p].Id()) == Some(xs[p])
  {
    AttestedMapExact(xs);
  }

  lemma {:induction false} RemovedIds(ids: seq<Key>, i: nat, key: Key)
    requires i < |ids| && Distinct(ids)
    ensures Distinct(ids[..i] + ids[i + 1..])
    ensures key in ids[..i] + ids[i + 1..] <==> key in ids && key != ids[i]
  {
    var rest := ids[..i] + ids[i + 1..];
    assert forall p :: 0 <= p < |rest| ==> rest[p] == ids[if p < i then p else p + 1];
    if key in ids && key != ids[i] {
      var p :| 0 <= p < |ids| && ids[p] == key;
      assert rest[if p < i then p else p - 1] == key;
    }
  }

  /** Deleting the attested row of one mutant leaves every other row. */
  lemma {:induction false} RestIds(xs: seq<Attestation>, i: nat, key: Key)
    requires i < |xs| && Distinct(AttestedIds(xs))
    ensures var rest := xs[..i] + xs[i + 1..];
            Distinct(AttestedIds(rest)) && (key in AttestedIds(rest) <==> key in AttestedIds(xs) && key != xs[i].Id())
  {
    assert AttestedIds(xs[..i] + xs[i + 1..]) == AttestedIds(xs)[..i] + AttestedIds(xs)[i + 1..];
    RemovedIds(AttestedIds(xs), i, key);
  }

  lemma {:induction false} RemoveAt(xs: seq<Attestation>, i: nat, key: Key)
    requires i < |xs| && Distinct(AttestedIds(xs))
    ensures Distinct(AttestedIds(xs[..i] + xs[i + 1..]))
    ensures Lookup(AttestedMap(xs[..i] + xs[i + 1..]), key) == if key == xs[i].Id() then None else Lookup(AttestedMap(xs), key)
  {
    var rest := xs[..i] + xs[i + 1..];
    RestIds(xs, i, key);
    AttestedLookup(xs, key);
    AttestedLookup(rest, key);
    if key in AttestedIds(rest) {
      var p :| 0 <= p < |rest| && AttestedIds(rest)[p] == key;
      RowLookup(rest, p);
      RowLookup(xs, if p < i then p else p + 1);
    }
  }

  lemma {:induction false} ReplaceAt(xs: seq<Attestation>, i: nat, a: Attestation, key: Key)
    requires i < |xs| && Distinct(AttestedIds(xs)) && a.Id() == xs[i].Id()
    ensures AttestedIds(xs[i := a]) == AttestedIds(xs)
    ensures Lookup(AttestedMap(xs[i := a]), key) == if key == a.Id() then Some(a) else Lookup(AttestedMap(xs), key)
  {
    var now := xs[i := a];
    assert AttestedIds(now) == AttestedIds(xs);
    AttestedLookup(xs, key);
    AttestedLookup(now, key);
    if key in AttestedIds(xs) {
      var p :| 0 <= p < |xs| && AttestedIds(xs)[p] == key;
      RowLookup(xs, p);
      RowLookup(now, p);
    }
  }

  /** An edit keeps the record tidy, keeps its survivors, and moves no other mutant's dispositions. */
  lemma {:induction false} EditAt(f: Finding, verb: Verb, mutant: Key, reason: string, key: Key)
    requires Tidy(f) && Edited(f, verb, mutant, reason).Ok?
    ensures var g := Edited(f, verb, mutant, reason).value;
            && Tidy(g) && g.survivors == f.survivors
            && (key != mutant ==> Lookup(AttestedMap(g.attested), key) == Lookup(AttestedMap(f.attested), key)
                                  && Lookup(WithdrawnMap(g.withdrawn), key) == Lookup(WithdrawnMap(f.withdrawn), key))
  {
    FirstAttestedFinds(f.attested, mutant);
    match verb {
      case DoAttest =>
        var a := Attestation(mutant.position, mutant.operator, reason, FirstSite(f.survivors, mutant).value);
        AttestedAppend(f.attested, a, key);
        DistinctAppend(AttestedIds(f.attested), mutant);
        WithoutWithdrawnAt(f.withdrawn, mutant, key);
      case DoReattest =>
        var i := FirstAttested(f.attested, mutant).value;
        ReplaceAt(f.attested, i, f.attested[i].(reason := reason, site := FirstSite(f.survivors, mutant).value), key);
      case DoWithdraw =>
        WithdrawRow(f, mutant, reason, key);
    }
  }

  function WithdrawalOf(f: Finding, mutant: Key, reason: string): WithdrawnAttestation
    requires Withdrawn(f, mutant, reason).Ok?
  {
    FirstAttestedFinds(f.attested, mutant);
    var a := f.attested[FirstAttested(f.attested, mutant).value];
    var found := match FirstSite(f.survivors, mutant) case None => "" case Some(s) => s;
    WithdrawnAttestation(mutant.position, mutant.operator, a.reason, reason, if found == "" then a.site else found)
  }

  lemma {:induction false} WithdrawRow(f: Finding, mutant: Key, reason: string, key: Key)
    requires Tidy(f) && Withdrawn(f, mutant, reason).Ok?
    ensures var g := Withdrawn(f, mutant, reason).value;
            && Tidy(g) && g.survivors == f.survivors
            && Lookup(AttestedMap(g.attested), key) == (if key == mutant then None else Lookup(AttestedMap(f.attested), key))
            && Lookup(WithdrawnMap(g.withdrawn), key)
                 == if key == mutant then Some(WithdrawalOf(f, mutant, reason)) else Lookup(WithdrawnMap(f.withdrawn), key)
  {
    FirstAttestedFinds(f.attested, mutant);
    var i := FirstAttested(f.attested, mutant).value;
    RemoveAt(f.attested, i, key);
    AppendWithdrawalAt(f.withdrawn, WithdrawalOf(f, mutant, reason), key);
  }

  lemma {:induction false} AttestRow(f: Finding, verb: Verb, mutant: Key, reason: string)
    requires Tidy(f) && !verb.DoWithdraw? && Edited(f, verb, mutant, reason).Ok?
    ensures var g := Edited(f, verb, mutant, reason).value;
            && FirstSite(f.survivors, mutant).Some?
            && Lookup(AttestedMap(g.attested), mutant)
                 == Some(Attestation(mutant.position, mutant.operator, reason, FirstSite(f.survivors, mutant).value))
  {
    FirstAttestedFinds(f.attested, mutant);
    var site := FirstSite(f.survivors, mutant).value;
    if verb.DoAttest? {
      AttestedAppend(f.attested, Attestation(mutant.position, mutant.operator, reason, site), mutant);
    } else {
      var i := FirstAttested(f.attested, mutant).value;
      ReplaceAt(f.attested, i, f.attested[i].(reason := reason, site := site), mutant);
    }
  }

  lemma {:induction false} MergeAt(live: Finding, run: Finding, snap: Snapshot, key: Key)
    requires Tidy(live) && Tidy(run)
    ensures var g := MergedOnto(live, run, snap);
            && Tidy(g) && g.survivors == run.survivors
            && Lookup(AttestedMap(g.attested), key)
                 == AttestedAt(key, AttestedMap(live.attested), AttestedMap(run.attested), WithdrawnMap(live.withdrawn), SiteMap(run.survivors), snap)
            && Lookup(WithdrawnMap(g.withdrawn), key)
                 == WithdrawnAt(key, WithdrawnMap(live.withdrawn), WithdrawnMap(run.withdrawn), key in AttestedMap(g.attested), SiteMap(run.survivors))
  {
    GraftAt(live.attested, run.attested, live.withdrawn, run.withdrawn, run.survivors, snap, key);
    GraftDistinct(live.attested, run.attested, live.withdrawn, run.withdrawn, run.survivors, snap);
  }

  lemma {:induction false} PlayTidy(start: Finding, events: seq<Event>, run: Finding, snap: Snapshot)
    requires Tidy(start) && Tidy(run)
    ensures Tidy(Play(start, events, run, snap))
  {
    if events != [] {
      var init, e := events[..|events| - 1], events[|events| - 1];
      PlayTidy(start, init, run, snap);
      var live := Play(start, init, run, snap);
      match e {
        case Merge => MergeAt(live, run, snap, Key("", ""));
        case Edit(verb, mutant, reason) =>
          if Edited(live, verb, mutant, reason).Ok? {
            EditAt(live, verb, mutant, reason, mutant);
          }
      }
    }
  }

  /** Play splits at any point of the interleaving. */
  lemma {:induction false} PlaySplit(start: Finding, before: seq<Event>, after: seq<Event>, run: Finding,
          snap: Snapshot)
    ensures Play(start, before + after, run, snap) == Play(Play(start, before, run, snap), after, run, snap)
  {
    if after == [] {
      assert before + after == before;
    } else {
      var n := |after| - 1;
      PlaySplit(start, before, after[..n], run, snap);
      assert (before + after)[..|before + after| - 1] == before + after[..n];
    }
  }

  // ---- withdrawals ----

  /** The mutant is unattested, and where the fresh record still reports it a withdrawal stands at its site. */
  ghost predicate Retracted(f: Finding, run: Finding, mutant: Key) {
    && mutant !in AttestedMap(f.attested)
    && (mutant in SiteMap(run.survivors) ==>
          && mutant in WithdrawnMap(f.withdrawn)
          && (WithdrawnMap(f.withdrawn)[mutant].site == "" || WithdrawnMap(f.withdrawn)[mutant].site == SiteMap(run.survivors)[mutant]))
  }

  lemma {:induction false} CarriedAt(run: Finding, snap: Snapshot, mutant: Key)
    requires CarriedFrom(run, snap) && mutant in AttestedMap(run.attested)
    ensures AttestedMap(run.attested)[mutant].Id() == mutant && mutant in SiteMap(run.survivors)
    ensures mutant in snap.value && snap.value[mutant].reason == AttestedMap(run.attested)[mutant].reason
  {
    AttestedMapExact(run.attested);
  }

  /** A session's step on another mutant leaves this mutant's dispositions. */
  lemma {:induction false} EditElsewhere(live: Finding, e: Event, run: Finding, snap: Snapshot, mutant: Key)
    requires Tidy(live) && e.Edit? && e.mutant != mutant
    ensures Lookup(AttestedMap(Step(live, e, run, snap).attested), mutant) == Lookup(AttestedMap(live.attested), mutant)
    ensures Lookup(WithdrawnMap(Step(live, e, run, snap).withdrawn), mutant) == Lookup(WithdrawnMap(live.withdrawn), mutant)
  {
    if Edited(live, e.verb, e.mutant, e.reason).Ok? {
      EditAt(live, e.verb, e.mutant, e.reason, mutant);
    }
  }

  lemma {:induction false} MergeKeepsRetracted(live: Finding, run: Finding, snap: Snapshot, mutant: Key)
    requires Tidy(live) && Tidy(run) && CarriedFrom(run, snap) && Retracted(live, run, mutant)
    ensures Retracted(MergedOnto(live, run, snap), run, mutant)
  {
    MergeAt(live, run, snap, mutant);
    if mutant in AttestedMap(run.attested) {
      CarriedAt(run, snap, mutant);
    }
  }

  lemma {:induction false} RetractedStays(start: Finding, events: seq<Event>, run: Finding, snap: Snapshot, mutant: Key)
    requires Tidy(start) && Tidy(run) && CarriedFrom(run, snap) && Retracted(start, run, mutant) && Untouched(events, mutant)
    ensures Retracted(Play(start, events, run, snap), run, mutant)
  {
    if events != [] {
      var init, e := events[..|events| - 1], events[|events| - 1];
      RetractedStays(start, init, run, snap, mutant);
      PlayTidy(start, init, run, snap);
      var live := Play(start, init, run, snap);
      assert e in events;
      if e.Merge? {
        MergeKeepsRetracted(live, run, snap, mutant);
      } else {
        EditElsewhere(live, e, run, snap, mutant);
      }
    }
  }

  /**
   A withdrawal is never resurrected: once another session withdraws a mutant whose recorded site is empty or
   the fresh survivor's, no later merge of the run attests it again, whatever else the sessions do meanwhile.
   */
  lemma {:induction false} WithdrawalNeverResurrected(start: Finding, before: seq<Event>, mutant: Key, reason: string,
          after: seq<Event>, run: Finding, snap: Snapshot)
    requires RunOver(start, run, snap) && Untouched(after, mutant)
    requires var live := Play(start, before, run, snap);
             && Withdrawn(live, mutant, reason).Ok?
             && (mutant in SiteMap(run.survivors) ==>
                   WithdrawalOf(live, mutant, reason).site == "" || WithdrawalOf(live, mutant, reason).site == SiteMap(run.survivors)[mutant])
    ensures mutant !in AttestedIds(Play(start, before + [Edit(DoWithdraw, mutant, reason)] + after, run, snap).attested)
  {
    var edit := Edit(DoWithdraw, mutant, reason);
    PlayTidy(start, before, run, snap);
    var live := Play(start, before, run, snap);
    WithdrawRow(live, mutant, reason, mutant);
    var withdrawn := Withdrawn(live, mutant, reason).value;
    assert (before + [edit])[..|before|] == before;
    RetractedStays(withdrawn, after, run, snap, mutant);
    PlaySplit(start, before + [edit], after, run, snap);
    AttestedMapExact(Play(withdrawn, after, run, snap).attested);
  }

  /**
   Exactly when the in-run carry resurrects a withdrawal: two merges after it, the mutant is attested again if and
   only if the run carried it and the withdrawal's recorded site is neither empty nor the fresh survivor's.
   */
  lemma {:induction false} ResurrectedIffSiteMoved(live: Finding, run: Finding, snap: Snapshot, mutant: Key)
    requires Tidy(live) && Tidy(run) && CarriedFrom(run, snap)
    requires mutant !in AttestedMap(live.attested) && mutant in WithdrawnMap(live.withdrawn)
    requires mutant !in WithdrawnMap(run.withdrawn)
    ensures mutant in AttestedMap(MergedOnto(MergedOnto(live, run, snap), run, snap).attested) <==>
              && mutant in AttestedMap(run.attested)
              && WithdrawnMap(live.withdrawn)[mutant].site != ""
              && WithdrawnMap(live.withdrawn)[mutant].site != SiteAt(SiteMap(run.survivors), mutant)
  {
    MergeAt(live, run, snap, mutant);
    MergeAt(MergedOnto(live, run, snap), run, snap, mutant);
    AttestedMapExact(run.attested);
  }

  // ---- new dispositions ----

  /** The mutant is attested with this reason, at no site or the fresh survivor's. */
  ghost predicate Holds(f: Finding, run: Finding, mutant: Key, reason: string) {
    && mutant in AttestedMap(f.attested)
    && AttestedMap(f.attested)[mutant].reason == reason
    && (AttestedMap(f.attested)[mutant].site == "" || AttestedMap(f.attested)[mutant].site == SiteAt(SiteMap(run.survivors), mutant))
  }

  predicate NewReason(snap: Snapshot, mutant: Key, reason: string) {
    snap.Some? && (mutant in snap.value ==> snap.value[mutant].reason != reason)
  }

  /** One merge carries a live disposition of a new reason: adopted over a carried one, grafted otherwise. */
  lemma {:induction false} NewReasonCarried(key: Key, live: map<Key, Attestation>, carried: map<Key, Attestation>,
          retracted: map<Key, WithdrawnAttestation>, sites: map<Key, string>, snap: Snapshot)
    requires key in live && key in sites && live[key].Id() == key && NewReason(snap, key, live[key].reason)
    requires live[key].site == "" || live[key].site == sites[key]
    requires key in carried ==> carried[key].Id() == key && key in snap.value && snap.value[key].reason == carried[key].reason
    ensures var kept := AttestedAt(key, live, carried, retracted, sites, snap);
            kept.Some? && kept.value.reason == live[key].reason && kept.value.site == sites[key]
  {
  }

  lemma {:induction false} MergeKeepsNew(live: Finding, run: Finding, snap: Snapshot, mutant: Key, reason: string)
    requires Tidy(live) && Tidy(run) && CarriedFrom(run, snap) && NewReason(snap, mutant, reason)
    requires mutant in SiteMap(run.survivors) && Holds(live, run, mutant, reason)
    ensures Holds(MergedOnto(live, run, snap), run, mutant, reason)
  {
    MergeAt(live, run, snap, mutant);
    AttestedLookup(live.attested, mutant);
    if mutant in AttestedMap(run.attested) {
      CarriedAt(run, snap, mutant);
    }
    NewReasonCarried(mutant, AttestedMap(live.attested), AttestedMap(run.attested), WithdrawnMap(live.withdrawn), SiteMap(run.survivors), snap);
  }

  lemma {:induction false} NewDispositionStays(start: Finding, events: seq<Event>, run: Finding, snap: Snapshot,
          mutant: Key, reason: string)
    requires Tidy(start) && Tidy(run) && CarriedFrom(run, snap) && NewReason(snap, mutant, reason)
    requires mutant in SiteMap(run.survivors) && Holds(start, run, mutant, reason) && Untouched(events, mutant)
    ensures Holds(Play(start, events, run, snap), run, mutant, reason)
  {
    if events != [] {
      var init, e := events[..|events| - 1], events[|events| - 1];
      NewDispositionStays(start, init, run, snap, mutant, reason);
      PlayTidy(start, init, run, snap);
      var live := Play(start, init, run, snap);
      assert e in events;
      if e.Merge? {
        MergeKeepsNew(live, run, snap, mutant, reason);
      } else {
        EditElsewhere(live, e, run, snap, mutant);
      }
    }
  }

  /**
   A disposition recorded during the run with a reason new since the snapshot is in the final record, with that
   reason, whenever the fresh record still reports its mutant at the site it was judged at.
   */
  lemma {:induction false} NewDispositionReachesTheEnd(start: Finding, before: seq<Event>, verb: Verb, mutant: Key,
          reason: string, after: seq<Event>, run: Finding, snap: Snapshot)
    requires RunOver(start, run, snap) && Untouched(after, mutant) && !verb.DoWithdraw?
    requires NewReason(snap, mutant, reason) && mutant in SiteMap(run.survivors)
    requires var live := Play(start, before, run, snap);
             && Edited(live, verb, mutant, reason).Ok?
             && (FirstSite(live.survivors, mutant) == Some("") || FirstSite(live.survivors, mutant) == Some(SiteMap(run.survivors)[mutant]))
    ensures Holds(Play(start, before + [Edit(verb, mutant, reason)] + after, run, snap), run, mutant, reason)
  {
    var edit := Edit(verb, mutant, reason);
    PlayTidy(start, before, run, snap);
    var live := Play(start, before, run, snap);
    AttestRow(live, verb, mutant, reason);
    EditAt(live, verb, mutant, reason, mutant);
    var edited := Edited(live, verb, mutant, reason).value;
    assert (before + [edit])[..|before|] == before;
    NewDispositionStays(edited, after, run, snap, mutant, reason);
    PlaySplit(start, before + [edit], after, run, snap);
  }

  // ---- dispositions nobody touched ----

  lemma {:induction false} UntouchedBeforeMerge(start: Finding, events: seq<Event>, run: Finding, snap: Snapshot,
          mutant: Key)
    requires Tidy(start) && Tidy(run) && Untouched(events, mutant) && Merge !in events
    ensures Lookup(AttestedMap(Play(start, events, run, snap).attested), mutant) == Lookup(AttestedMap(start.attested), mutant)
  {
    if events != [] {
      var init, e := events[..|events| - 1], events[|events| - 1];
      UntouchedBeforeMerge(start, init, run, snap, mutant);
      PlayTidy(start, init, run, snap);
      assert e in events;
      EditElsewhere(Play(start, init, run, snap), e, run, snap, mutant);
    }
  }

  lemma {:induction false} UnattestedStays(start: Finding, events: seq<Event>, run: Finding, snap: Snapshot,
          mutant: Key)
    requires Tidy(start) && Tidy(run) && Untouched(events, mutant)
    requires mutant !in AttestedMap(start.attested) && mutant !in AttestedMap(run.attested)
    ensures mutant !in AttestedMap(Play(start, events, run, snap).attested)
  {
    if events != [] {
      var init, e := events[..|events| - 1], events[|events| - 1];
      UnattestedStays(start, init, run, snap, mutant);
      PlayTidy(start, init, run, snap);
      var live := Play(start, init, run, snap);
      assert e in events;
      if e.Merge? {
        MergeAt(live, run, snap, mutant);
      } else {
        EditElsewhere(live, e, run, snap, mutant);
      }
    }
  }

  /**
   A snapshot disposition the run did not carry, untouched by the sessions: the run's first merge sheds it, and
   no later merge brings it back.
   */
  lemma {:induction false} RejectedDispositionSheds(start: Finding, before: seq<Event>, after: seq<Event>, run: Finding,
          snap: Snapshot, mutant: Key)
    requires RunOver(start, run, snap) && Merge !in before && Untouched(before, mutant) && Untouched(after, mutant)
    requires mutant in AttestedMap(start.attested) && mutant !in AttestedMap(run.attested)
    ensures var live := Play(start, before, run, snap);
            mutant in ShedIds(GraftDispositions(live.attested, run.attested, live.withdrawn, run.withdrawn, run.survivors, snap).sheds)
    ensures mutant !in AttestedIds(Play(start, before + [Merge] + after, run, snap).attested)
  {
    var live := Play(start, before, run, snap);
    PlayTidy(start, before, run, snap);
    UntouchedBeforeMerge(start, before, run, snap, mutant);
    MergeRejects(start, live, run, snap, mutant);
    assert (before + [Merge])[..|before|] == before;
    UnattestedStays(MergedOnto(live, run, snap), after, run, snap, mutant);
    PlaySplit(start, before + [Merge], after, run, snap);
    AttestedLookup(Play(MergedOnto(live, run, snap), after, run, snap).attested, mutant);
  }

  /** The first merge over a still untouched snapshot disposition the run did not carry. */
  lemma {:induction false} MergeRejects(start: Finding, live: Finding, run: Finding, snap: Snapshot, mutant: Key)
    requires RunOver(start, run, snap) && Tidy(live)
    requires mutant in AttestedMap(start.attested) && mutant !in AttestedMap(run.attested)
    requires Lookup(AttestedMap(live.attested), mutant) == Lookup(AttestedMap(start.attested), mutant)
    ensures mutant in ShedIds(GraftDispositions(live.attested, run.attested, live.withdrawn, run.withdrawn, run.survivors, snap).sheds)
    ensures Tidy(MergedOnto(live, run, snap)) && mutant !in AttestedMap(MergedOnto(live, run, snap).attested)
  {
    AttestedLookup(start.attested, mutant);
    GraftAt(live.attested, run.attested, live.withdrawn, run.withdrawn, run.survivors, snap, mutant);
    MergeAt(live, run, snap, mutant);
  }
}
