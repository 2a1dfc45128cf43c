/**
 Survivor dispositions: attest, re-attest and withdraw on one record, the in-run carry over surviving anchors,
 and the graft of a live document's dispositions onto a fresh record under a run-start snapshot.
 */
module Dispositions {
  import opened Wrappers
  import opened Records

  // ---- the per-mutant views the code builds as Go maps (a later row overwrites an earlier one) ----

  function Lookup<V>(m: map<Key, V>, key: Key): Option<V> {
    if key in m then Some(m[key]) else None
  }

  function SiteMap(xs: seq<Survivor>): map<Key, string> {
    if xs == [] then map[] else SiteMap(xs[..|xs| - 1])[xs[|xs| - 1].Id() := xs[|xs| - 1].site]
  }

  function AttestedMap(xs: seq<Attestation>): map<Key, Attestation> {
    if xs == [] then map[] else AttestedMap(xs[..|xs| - 1])[xs[|xs| - 1].Id() := xs[|xs| - 1]]
  }

  function WithdrawnMap(xs: seq<WithdrawnAttestation>): map<Key, WithdrawnAttestation> {
    if xs == [] then map[] else WithdrawnMap(xs[..|xs| - 1])[xs[|xs| - 1].Id() := xs[|xs| - 1]]
  }

  /** Go's map index: the zero value for an absent key. */
  function SiteAt(sites: map<Key, string>, key: Key): string {
    if key in sites then sites[key] else ""
  }

  // ---- one disposition against the record it is made on ----

  datatype Refusal = NoReason | PolicyRefused | NoSurvivor | AlreadyAttested | NotAttested

  /** The first survivor row of a mutant, as the linear searches find it. */
  function FirstSite(xs: seq<Survivor>, key: Key): Option<string> {
    if xs == [] then None else if xs[0].Id() == key then Some(xs[0].site) else FirstSite(xs[1..], key)
  }

  function FirstAttested(xs: seq<Attestation>, key: Key): Option<nat> {
    if xs == [] then None else if xs[0].Id() == key then Some(0) else
      match FirstAttested(xs[1..], key)
      case None => None
      case Some(i) => Some(i + 1)
  }

  function WithoutWithdrawn(xs: seq<WithdrawnAttestation>, key: Key): seq<WithdrawnAttestation> {
    if xs == [] then [] else
      WithoutWithdrawn(xs[..|xs| - 1], key) + if xs[|xs| - 1].Id() == key then [] else [xs[|xs| - 1]]
  }

  function Attested(f: Finding, key: Key, reason: string): Result<Finding, Refusal> {
    if reason == "" then Err(NoReason)
    else if PolicyIssue(f) then Err(PolicyRefused)
    else match FirstSite(f.survivors, key)
      case None => Err(NoSurvivor)
      case Some(site) =>
        if FirstAttested(f.attested, key).Some? then Err(AlreadyAttested)
        else Ok(f.(withdrawn := WithoutWithdrawn(f.withdrawn, key),
                   attested := f.attested + [Attestation(key.position, key.operator, reason, site)]))
  }

  lemma {:induction false} FirstAttestedFinds(xs: seq<Attestation>, key: Key)
    ensures match FirstAttested(xs, key)
            case None => key !in AttestedIds(xs)
            case Some(i) => i < |xs| && xs[i].Id() == key && forall j :: 0 <= j < i ==> xs[j].Id() != key
  {
    if xs != [] && xs[0].Id() != key {
      FirstAttestedFinds(xs[1..], key);
      var ids, rest := AttestedIds(xs), AttestedIds(xs[1..]);
      assert forall i :: 0 < i < |ids| ==> ids[i] == rest[i - 1];
    }
  }

  lemma {:induction false} FirstSiteFinds(xs: seq<Survivor>, key: Key)
    ensures match FirstSite(xs, key)
            case None => key !in SurvivorIds(xs)
            case Some(site) => exists i :: 0 <= i < |xs| && xs[i].Id() == key && xs[i].site == site
  {
    if xs != [] && xs[0].Id() != key {
      FirstSiteFinds(xs[1..], key);
      var ids, rest := SurvivorIds(xs), SurvivorIds(xs[1..]);
      assert forall i :: 0 < i < |ids| ==> ids[i] == rest[i - 1];
      if FirstSite(xs[1..], key).Some? {
        var i :| 0 <= i < |xs[1..]| && xs[1..][i].Id() == key && xs[1..][i].site == FirstSite(xs[1..], key).value;
        assert xs[i + 1].Id() == key;
      }
    }
  }

  function Reattested(f: Finding, key: Key, reason: string): Result<Finding, Refusal> {
    if reason == "" then Err(NoReason)
    else if PolicyIssue(f) then Err(PolicyRefused)
    else match FirstSite(f.survivors, key)
      case None => Err(NoSurvivor)
      case Some(site) =>
        match FirstAttested(f.attested, key)
        case None => Err(NotAttested)
        case Some(i) =>
          FirstAttestedFinds(f.attested, key);
          Ok(f.(attested := f.attested[i := f.attested[i].(reason := reason, site := site)]))
  }

  function Withdrawn(f: Finding, key: Key, reason: string): Result<Finding, Refusal> {
    if reason == "" then Err(NoReason)
    else match FirstAttested(f.attested, key)
      case None => Err(NotAttested)
      case Some(i) =>
        FirstAttestedFinds(f.attested, key);
        var a := f.attested[i];
        var found := match FirstSite(f.survivors, key) case None => "" case Some(s) => s;
        var site := if found == "" then a.site else found;
        Ok(f.(attested := f.attested[..i] + f.attested[i + 1..],
              withdrawn := WithoutWithdrawn(f.withdrawn, key)
                           + [WithdrawnAttestation(key.position, key.operator, a.reason, reason, site)]))
  }

  /** A finding held by pointer: the receiver the disposition verbs update. */
  class FindingCell {
    var row: Finding

    constructor (f: Finding)
      ensures row == f
    {
      row := f;
    }

    method SurvivorSite(key: Key) returns (site: Option<string>)
      ensures site == FirstSite(row.survivors, key)
    {
      site := None;
      for i := 0 to |row.survivors|
        invariant FirstSite(row.survivors, key) == FirstSite(row.survivors[i..], key)
      {
        if row.survivors[i].Id() == key {
          return Some(row.survivors[i].site);
        }
      }
    }

    method AttestedIndex(key: Key) returns (index: Option<nat>)
      ensures index == FirstAttested(row.attested, key)
    {
      FirstAttestedFinds(row.attested, key);
      index := None;
      for i := 0 to |row.attested|
        invariant forall j :: 0 <= j < i ==> row.attested[j].Id() != key
      {
        if row.attested[i].Id() == key {
          assert AttestedIds(row.attested)[i] == key;
          return Some(i);
        }
      }
      assert key !in AttestedIds(row.attested);
    }

    method DropWithdrawn(key: Key)
      modifies this
      ensures row == old(row).(withdrawn := WithoutWithdrawn(old(row.withdrawn), key))
    {
      var kept := [];
      for i := 0 to |row.withdrawn|
        invariant row == old(row)
        invariant kept == WithoutWithdrawn(row.withdrawn[..i], key)
      {
        assert row.withdrawn[..i + 1][..i] == row.withdrawn[..i];
        if row.withdrawn[i].Id() != key {
          kept := kept + [row.withdrawn[i]];
        }
      }
      assert row.withdrawn[..|row.withdrawn|] == row.withdrawn;
      row := row.(withdrawn := kept);
    }

    method Attest(key: Key, reason: string) returns (refused: Option<Refusal>)
      modifies this
      ensures Attested(old(row), key, reason) == if refused.None? then Ok(row) else Err(refused.value)
      ensures refused.Some? ==> row == old(row)
    {
      if reason == "" {
        return Some(NoReason);
      }
      if PolicyIssue(row) {
        return Some(PolicyRefused);
      }
      var site := SurvivorSite(key);
      if site.None? {
        return Some(NoSurvivor);
      }
      var at := AttestedIndex(key);
      if at.Some? {
        return Some(AlreadyAttested);
      }
      DropWithdrawn(key);
      row := row.(attested := row.attested + [Attestation(key.position, key.operator, reason, site.value)]);
      refused := None;
    }

    method Reattest(key: Key, reason: string) returns (refused: Option<Refusal>)
      modifies this
      ensures Reattested(old(row), key, reason) == if refused.None? then Ok(row) else Err(refused.value)
      ensures refused.Some? ==> row == old(row)
    {
      if reason == "" {
        return Some(NoReason);
      }
      if PolicyIssue(row) {
        return Some(PolicyRefused);
      }
      var site := SurvivorSite(key);
      if site.None? {
        return Some(NoSurvivor);
      }
      var at := AttestedIndex(key);
      if at.None? {
        return Some(NotAttested);
      }
      FirstAttestedFinds(row.attested, key);
      row := row.(attested := row.attested[at.value := row.attested[at.value].(reason := reason, site := site.value)]);
      refused := None;
    }

    method Withdraw(key: Key, reason: string) returns (refused: Option<Refusal>)
      modifies this
      ensures Withdrawn(old(row), key, reason) == if refused.None? then Ok(row) else Err(refused.value)
      ensures refused.Some? ==> row == old(row)
    {
      if reason == "" {
        return Some(NoReason);
      }
      var found := SurvivorSite(key);
      var site := if found.Some? then found.value else "";
      var at := AttestedIndex(key);
      if at.None? {
        return Some(NotAttested);
      }
      FirstAttestedFinds(row.attested, key);
      var a := row.attested[at.value];
      if site == "" {
        site := a.site;
      }
      row := row.(attested := row.attested[..at.value] + row.attested[at.value + 1..]);
      DropWithdrawn(key);
      row := row.(withdrawn := row.withdrawn + [WithdrawnAttestation(key.position, key.operator, a.reason, reason, site)]);
      refused := None;
    }
  }

  // ---- the in-run carry ----

  datatype ShedCause = SurvivorGone | SiteMoved | DomainMoved

  datatype AttestationShed = AttestationShed(symbol: string, position: string, operator: string, cause: ShedCause) {
    function Id(): Key { Key(position, operator) }
  }

  function ShedIds(xs: seq<AttestationShed>): (ids: seq<Key>)
    ensures |ids| == |xs| && forall i :: 0 <= i < |xs| ==> ids[i] == xs[i].Id()
  {
    seq(|xs|, i requires 0 <= i < |xs| => xs[i].Id())
  }

  datatype Carried = Carried(kept: seq<Attestation>, siteSheds: seq<AttestationShed>, gone: seq<Attestation>)

  /** Where one prior disposition goes: it rides at its survivor's site, sheds over a moved site, or its mutant is gone. */
  function CarryOne(a: Attestation, sites: map<Key, string>, acc: Carried): Carried {
    if a.Id() !in sites then acc.(gone := acc.gone + [a])
    else if a.site != "" && a.site != sites[a.Id()] then
      acc.(siteSheds := acc.siteSheds + [AttestationShed("", a.position, a.operator, SiteMoved)])
    else acc.(kept := acc.kept + [a.(site := sites[a.Id()])])
  }

  function CarryAll(prior: seq<Attestation>, sites: map<Key, string>): Carried {
    if prior == [] then Carried([], [], [])
    else CarryOne(prior[|prior| - 1], sites, CarryAll(prior[..|prior| - 1], sites))
  }

  method BuildSites(survivors: seq<Survivor>) returns (sites: map<Key, string>)
    ensures sites == SiteMap(survivors)
  {
    sites := map[];
    for i := 0 to |survivors|
      invariant sites == SiteMap(survivors[..i])
    {
      assert survivors[..i + 1][..i] == survivors[..i];
      sites := sites[survivors[i].Id() := survivors[i].site];
    }
    assert survivors[..|survivors|] == survivors;
  }

  method CarryAnchoredAttestations(prior: seq<Attestation>, survivors: seq<Survivor>) returns (c: Carried)
    ensures c == CarryAll(prior, SiteMap(survivors))
  {
    var sites := BuildSites(survivors);
    c := Carried([], [], []);
    for i := 0 to |prior|
      invariant c == CarryAll(prior[..i], sites)
    {
      assert prior[..i + 1][..i] == prior[..i];
      var a := prior[i];
      if a.Id() !in sites {
        c := c.(gone := c.gone + [a]);
      } else if a.site != "" && a.site != sites[a.Id()] {
        c := c.(siteSheds := c.siteSheds + [AttestationShed("", a.position, a.operator, SiteMoved)]);
      } else {
        c := c.(kept := c.kept + [a.(site := sites[a.Id()])]);
      }
    }
    assert prior[..|prior|] == prior;
  }

  /** A withdrawal joins the list if it names an unattested survivor at its site that the list does not name yet. */
  function AddOne(w: WithdrawnAttestation, out: seq<WithdrawnAttestation>, attested: set<Key>,
          sites: map<Key, string>): seq<WithdrawnAttestation> {
    if w.Id() in attested || w.Id() in WithdrawnIds(out) || w.Id() !in sites || (w.site != "" && w.site != sites[w.Id()])
    then out
    else out + [w.(site := sites[w.Id()])]
  }

  /** Withdrawals that still name an unattested survivor at their site, each mutant once, adopting the site. */
  function AddWithdrawn(ws: seq<WithdrawnAttestation>, acc: seq<WithdrawnAttestation>, attested: set<Key>,
          sites: map<Key, string>): seq<WithdrawnAttestation>
  {
    if ws == [] then acc else AddOne(ws[|ws| - 1], AddWithdrawn(ws[..|ws| - 1], acc, attested, sites), attested, sites)
  }

  method AppendWithdrawn(ws: seq<WithdrawnAttestation>, acc: seq<WithdrawnAttestation>, attested: set<Key>,
          sites: map<Key, string>) returns (out: seq<WithdrawnAttestation>)
    ensures out == AddWithdrawn(ws, acc, attested, sites)
  {
    out := acc;
    var seen := set i | 0 <= i < |acc| :: acc[i].Id();
    for i := 0 to |ws|
      invariant out == AddWithdrawn(ws[..i], acc, attested, sites)
      invariant forall key :: key in seen <==> key in WithdrawnIds(out)
    {
      assert ws[..i + 1][..i] == ws[..i];
      var w := ws[i];
      if w.Id() !in attested && w.Id() !in seen && w.Id() in sites && (w.site == "" || w.site == sites[w.Id()]) {
        ghost var before := out;
        out := out + [w.(site := sites[w.Id()])];
        seen := seen + {w.Id()};
        assert WithdrawnIds(out) == WithdrawnIds(before) + [w.Id()];
      }
    }
    assert ws[..|ws|] == ws;
  }

  function AttestedSet(xs: seq<Attestation>): set<Key> {
    if xs == [] then {} else AttestedSet(xs[..|xs| - 1]) + {xs[|xs| - 1].Id()}
  }

  method CarryAnchoredWithdrawn(prior: seq<WithdrawnAttestation>, attested: seq<Attestation>, survivors: seq<Survivor>)
    returns (kept: seq<WithdrawnAttestation>)
    ensures kept == AddWithdrawn(prior, [], AttestedSet(attested), SiteMap(survivors))
  {
    if prior == [] {
      return [];
    }
    var sites := BuildSites(survivors);
    kept := AppendWithdrawn(prior, [], AttestedSet(attested), sites);
  }

  // ---- the graft ----

  /** The run-start snapshot of one record's dispositions; None when the caller merges without one. */
  type Snapshot = Option<map<Key, Attestation>>

  /** What becomes of a disposition the fresh record carries: honoured withdrawal, adopted re-judgment, or itself. */
  function CarryFresh(a: Attestation, live: map<Key, Attestation>, retracted: map<Key, WithdrawnAttestation>,
          sites: map<Key, string>, snap: Snapshot): Option<Attestation>
  {
    var key := a.Id();
    if snap.Some? && key in snap.value && snap.value[key].reason == a.reason then
      if key !in live && key in retracted then None
      else if key in live && live[key].reason != a.reason && (live[key].site == "" || live[key].site == SiteAt(sites, key)) then
        Some(a.(reason := live[key].reason, site := SiteAt(sites, key)))
      else Some(a)
    else Some(a)
  }

  function AppendKept(out: seq<Attestation>, kept: Option<Attestation>): seq<Attestation> {
    match kept case None => out case Some(a) => out + [a]
  }

  function GraftFresh(carried: seq<Attestation>, live: map<Key, Attestation>, retracted: map<Key, WithdrawnAttestation>,
          sites: map<Key, string>, snap: Snapshot): seq<Attestation>
  {
    if carried == [] then [] else
      AppendKept(GraftFresh(carried[..|carried| - 1], live, retracted, sites, snap),
                 CarryFresh(carried[|carried| - 1], live, retracted, sites, snap))
  }

  datatype Judgment = Standing | Sheds(cause: ShedCause) | Grafts(a: Attestation)

  /** A live disposition the fresh record does not already decide. */
  function JudgePrior(a: Attestation, attested: set<Key>, sites: map<Key, string>, snap: Snapshot): Judgment {
    var key := a.Id();
    if key in attested then Standing
    else if key !in sites then Sheds(SurvivorGone)
    else if a.site != "" && a.site != sites[key] then Sheds(SiteMoved)
    else if snap.Some? && key in snap.value && snap.value[key] == a then Sheds(DomainMoved)
    else Grafts(a.(site := sites[key]))
  }

  datatype Graft = Graft(attested: seq<Attestation>, sheds: seq<AttestationShed>)

  function GraftPrior(prior: seq<Attestation>, base: seq<Attestation>, sites: map<Key, string>, snap: Snapshot): Graft {
    if prior == [] then Graft(base, []) else
      var g := GraftPrior(prior[..|prior| - 1], base, sites, snap);
      JoinOne(prior[|prior| - 1], g, AttestedSet(g.attested), sites, snap)
  }

  function JoinOne(a: Attestation, g: Graft, attested: set<Key>, sites: map<Key, string>, snap: Snapshot): Graft {
    match JudgePrior(a, attested, sites, snap)
    case Standing => g
    case Sheds(cause) => g.(sheds := g.sheds + [AttestationShed("", a.position, a.operator, cause)])
    case Grafts(b) => g.(attested := g.attested + [b])
  }

  datatype Grafted = Grafted(attested: seq<Attestation>, withdrawn: seq<WithdrawnAttestation>, sheds: seq<AttestationShed>)

  function GraftDispositions(prior: seq<Attestation>, carried: seq<Attestation>,
          priorWithdrawn: seq<WithdrawnAttestation>, freshWithdrawn: seq<WithdrawnAttestation>,
          survivors: seq<Survivor>, snap: Snapshot): Grafted
  {
    var sites := SiteMap(survivors);
    var base := GraftFresh(carried, AttestedMap(prior), WithdrawnMap(priorWithdrawn), sites, snap);
    var g := GraftPrior(prior, base, sites, snap);
    var taken := AttestedSet(g.attested);
    Grafted(g.attested, AddWithdrawn(freshWithdrawn, AddWithdrawn(priorWithdrawn, [], taken, sites), taken, sites), g.sheds)
  }

  method GraftDispositionsAgainst(prior: seq<Attestation>, carried: seq<Attestation>,
          priorWithdrawn: seq<WithdrawnAttestation>, freshWithdrawn: seq<WithdrawnAttestation>,
          survivors: seq<Survivor>, snap: Snapshot)
    returns (g: Grafted)
    ensures g == GraftDispositions(prior, carried, priorWithdrawn, freshWithdrawn, survivors, snap)
  {
    var sites := BuildSites(survivors);
    var live := map[];
    for i := 0 to |prior|
      invariant live == AttestedMap(prior[..i])
    {
      assert prior[..i + 1][..i] == prior[..i];
      live := live[prior[i].Id() := prior[i]];
    }
    assert prior[..|prior|] == prior;
    var retracted := map[];
    for i := 0 to |priorWithdrawn|
      invariant retracted == WithdrawnMap(priorWithdrawn[..i])
    {
      assert priorWithdrawn[..i + 1][..i] == priorWithdrawn[..i];
      retracted := retracted[priorWithdrawn[i].Id() := priorWithdrawn[i]];
    }
    assert priorWithdrawn[..|priorWithdrawn|] == priorWithdrawn;
    var base := KeepCarried(carried, live, retracted, sites, snap);
    var joined := JoinLive(prior, base, sites, snap);
    var taken := CollectIds(joined.attested);
    var withdrawn := AppendWithdrawn(priorWithdrawn, [], taken, sites);
    withdrawn := AppendWithdrawn(freshWithdrawn, withdrawn, taken, sites);
    g := Grafted(joined.attested, withdrawn, joined.sheds);
  }

  method CollectIds(xs: seq<Attestation>) returns (ids: set<Key>)
    ensures ids == AttestedSet(xs)
  {
    ids := {};
    for i := 0 to |xs|
      invariant ids == AttestedSet(xs[..i])
    {
      assert xs[..i + 1][..i] == xs[..i];
      ids := ids + {xs[i].Id()};
    }
    assert xs[..|xs|] == xs;
  }

  /** The graft's walk over the fresh record's own dispositions. */
  method KeepCarried(carried: seq<Attestation>, live: map<Key, Attestation>, retracted: map<Key, WithdrawnAttestation>,
          sites: map<Key, string>, snap: Snapshot) returns (out: seq<Attestation>)
    ensures out == GraftFresh(carried, live, retracted, sites, snap)
  {
    out := [];
    for i := 0 to |carried|
      invariant out == GraftFresh(carried[..i], live, retracted, sites, snap)
    {
      assert carried[..i + 1][..i] == carried[..i];
      var a := carried[i];
      var key := a.Id();
      if snap.Some? && key in snap.value && snap.value[key].reason == a.reason {
        if key !in live && key in retracted {
          continue;
        }
        if key in live && live[key].reason != a.reason {
          if live[key].site == "" || live[key].site == SiteAt(sites, key) {
            a := a.(reason := live[key].reason, site := SiteAt(sites, key));
          }
        }
      }
      out := out + [a];
    }
    assert carried[..|carried|] == carried;
  }

  method JoinNext(a: Attestation, g: Graft, attested: set<Key>, sites: map<Key, string>, snap: Snapshot)
    returns (g': Graft, attested': set<Key>)
    requires attested == AttestedSet(g.attested)
    ensures g' == JoinOne(a, g, attested, sites, snap)
    ensures attested' == AttestedSet(g'.attested)
  {
    var key := a.Id();
    g', attested' := g, attested;
    if key in attested {
      return;
    }
    if key !in sites {
      g' := g.(sheds := g.sheds + [AttestationShed("", a.position, a.operator, SurvivorGone)]);
    } else if a.site != "" && a.site != sites[key] {
      g' := g.(sheds := g.sheds + [AttestationShed("", a.position, a.operator, SiteMoved)]);
    } else if snap.Some? && key in snap.value && snap.value[key] == a {
      g' := g.(sheds := g.sheds + [AttestationShed("", a.position, a.operator, DomainMoved)]);
    } else {
      var b := a.(site := sites[key]);
      AttestedSetAppend(g.attested, b);
      g' := g.(attested := g.attested + [b]);
      attested' := attested + {key};
    }
  }

  /** The graft's walk over the live document's dispositions. */
  method JoinLive(prior: seq<Attestation>, base: seq<Attestation>, sites: map<Key, string>,
          snap: Snapshot) returns (g: Graft)
    ensures g == GraftPrior(prior, base, sites, snap)
  {
    var attested := CollectIds(base);
    g := Graft(base, []);
    for i := 0 to |prior|
      invariant g == GraftPrior(prior[..i], base, sites, snap)
      invariant attested == AttestedSet(g.attested)
    {
      assert prior[..i + 1][..i] == prior[..i];
      g, attested := JoinNext(prior[i], g, attested, sites, snap);
    }
    assert prior[..|prior|] == prior;
  }

  // ---- what the lists mean, mutant by mutant ----

  lemma {:induction false} AttestedSetAppend(xs: seq<Attestation>, a: Attestation)
    ensures AttestedSet(xs + [a]) == AttestedSet(xs) + {a.Id()}
  {
    assert (xs + [a])[..|xs|] == xs;
  }

  lemma {:induction false} AttestedSetExact(xs: seq<Attestation>)
    ensures forall key :: key in AttestedSet(xs) <==> key in AttestedIds(xs)
  {
    if xs != [] {
      var init, last := xs[..|xs| - 1], xs[|xs| - 1];
      AttestedSetExact(init);
      assert AttestedIds(xs) == AttestedIds(init) + [last.Id()];
    }
  }

  lemma {:induction false} AttestedMapExact(xs: seq<Attestation>)
    ensures forall key :: key in AttestedMap(xs) <==> key in AttestedIds(xs)
    ensures forall key :: key in AttestedMap(xs) ==> AttestedMap(xs)[key] in xs && AttestedMap(xs)[key].Id() == key
    ensures Distinct(AttestedIds(xs)) ==>
              forall i :: 0 <= i < |xs| ==> xs[i].Id() in AttestedMap(xs) && AttestedMap(xs)[xs[i].Id()] == xs[i]
  {
    if xs != [] {
      var init, last := xs[..|xs| - 1], xs[|xs| - 1];
      AttestedMapExact(init);
      assert xs == init + [last];
      assert AttestedIds(xs) == AttestedIds(init) + [last.Id()];
      if Distinct(AttestedIds(xs)) {
        assert forall i :: 0 <= i < |init| ==> AttestedIds(init)[i] == AttestedIds(xs)[i];
        assert forall i :: 0 <= i < |init| ==> AttestedIds(xs)[i] != AttestedIds(xs)[|init|];
      }
    }
  }

  lemma {:induction false} WithdrawnMapExact(xs: seq<WithdrawnAttestation>)
    ensures forall key :: key in WithdrawnMap(xs) <==> key in WithdrawnIds(xs)
    ensures forall key :: key in WithdrawnMap(xs) ==> WithdrawnMap(xs)[key] in xs && WithdrawnMap(xs)[key].Id() == key
    ensures Distinct(WithdrawnIds(xs)) ==>
              forall i :: 0 <= i < |xs| ==> xs[i].Id() in WithdrawnMap(xs) && WithdrawnMap(xs)[xs[i].Id()] == xs[i]
  {
    if xs != [] {
      var init, last := xs[..|xs| - 1], xs[|xs| - 1];
      WithdrawnMapExact(init);
      assert xs == init + [last];
      assert WithdrawnIds(xs) == WithdrawnIds(init) + [last.Id()];
      if Distinct(WithdrawnIds(xs)) {
        assert forall i :: 0 <= i < |init| ==> WithdrawnIds(init)[i] == WithdrawnIds(xs)[i];
        assert forall i :: 0 <= i < |init| ==> WithdrawnIds(xs)[i] != WithdrawnIds(xs)[|init|];
      }
    }
  }

  lemma {:induction false} SiteMapExact(xs: seq<Survivor>)
    ensures forall key :: key in SiteMap(xs) <==> key in SurvivorIds(xs)
    ensures Distinct(SurvivorIds(xs)) ==> forall i :: 0 <= i < |xs| ==> SiteMap(xs)[xs[i].Id()] == xs[i].site
  {
    if xs != [] {
      var init, last := xs[..|xs| - 1], xs[|xs| - 1];
      SiteMapExact(init);
      assert SurvivorIds(xs) == SurvivorIds(init) + [last.Id()];
      if Distinct(SurvivorIds(xs)) {
        assert forall i :: 0 <= i < |init| ==> SurvivorIds(init)[i] == SurvivorIds(xs)[i];
        assert forall i :: 0 <= i < |init| ==> SurvivorIds(xs)[i] != SurvivorIds(xs)[|init|];
      }
    }
  }
}
