/**
 The machine-local overlay: one file per record at the path its key hashes to, though a hand edit may leave a record
 parked under a foreign name. The writer re-homes what its installs would overwrite, removes, installs, and is exact.
 */
module Overlay {
  import opened Wrappers
  import opened Sorting
  import opened Records
  import opened Merging

  type Files = map<string, Finding>

  /** The key-to-path map: truncated hashes the code takes as distinct. */
  ghost predicate Injective(home: string -> string) { forall a, b :: home(a) == home(b) ==> a == b }

  predicate Holds(files: Files, path: string, key: string) { path in files && KeyOf(files[path]) == key }

  /** The record a read serves for a key: the one at the key's own path, else the first by name. */
  ghost predicate Serves(files: Files, home: string -> string, key: string, f: Finding) {
    if Holds(files, home(key), key) then f == files[home(key)]
    else exists path :: Holds(files, path, key) && f == files[path] && forall q :: Holds(files, q, key) ==> AtMost(path, q)
  }

  datatype Edit = Removal(key: string) | Install(f: Finding)

  function LastInstall(installs: seq<Finding>, key: string): Option<Finding> {
    if installs == [] then None
    else if KeyOf(installs[|installs| - 1]) == key then Some(installs[|installs| - 1])
    else LastInstall(installs[..|installs| - 1], key)
  }

  /** The last install landing at a path. */
  function InstalledAt(installs: seq<Finding>, home: string -> string, path: string): Option<Finding> {
    if installs == [] then None
    else if home(KeyOf(installs[|installs| - 1])) == path then Some(installs[|installs| - 1])
    else InstalledAt(installs[..|installs| - 1], home, path)
  }

  function RemovalsOf(edits: seq<Edit>): seq<string> {
    if edits == [] then [] else
      RemovalsOf(edits[..|edits| - 1]) + if edits[|edits| - 1].Removal? then [edits[|edits| - 1].key] else []
  }

  function InstallsOf(edits: seq<Edit>): seq<Finding> {
    if edits == [] then [] else
      InstallsOf(edits[..|edits| - 1]) + if edits[|edits| - 1].Install? then [edits[|edits| - 1].f] else []
  }

  /** A read's view: every name a key was found under, and the record served for it. */
  datatype View = View(served: map<string, seq<string>>, records: map<string, Finding>)

  ghost predicate ReadOf(v: View, files: Files, home: string -> string) {
    && (forall key :: key in v.served <==> exists path :: Holds(files, path, key))
    && (forall key, path :: key in v.served ==> (path in v.served[key] <==> Holds(files, path, key)))
    && v.records.Keys == v.served.Keys
    && (forall key :: key in v.records ==> Serves(files, home, key, v.records[key]))
  }

  /** A path that a kept record was found under, away from its own path: an install there must re-home it. */
  predicate Parked(before: Files, home: string -> string, leaving: set<string>, path: string) {
    path in before && KeyOf(before[path]) !in leaving && home(KeyOf(before[path])) != path
  }

  /** Every path the write lands on has had its parked record re-homed. */
  ghost predicate Settled(before: Files, home: string -> string, leaving: set<string>, rehomed: set<string>,
          paths: set<string>) {
    forall path :: path in paths && Parked(before, home, leaving, path) ==> home(KeyOf(before[path])) in rehomed
  }

  /** A re-homed path: a kept key's own, holding the record the read served for it. */
  ghost predicate Rehomed(path: string, files: Files, v: View, home: string -> string, leaving: set<string>) {
    exists key :: key in v.records && key !in leaving && home(key) == path && path in files && files[path] == v.records[key]
  }

  ghost predicate RehomedOver(files: Files, before: Files, v: View, home: string -> string, leaving: set<string>,
          rehomed: set<string>) {
    && (forall path :: path in rehomed ==> Rehomed(path, files, v, home, leaving))
    && (forall path :: path !in rehomed ==> (path in files <==> path in before) && (path in before ==> files[path] == before[path]))
  }

  predicate Leaves(before: Files, removals: seq<string>, installs: seq<Finding>, path: string) {
    path in before && (KeyOf(before[path]) in removals || LastInstall(installs, KeyOf(before[path])).Some?)
  }

  /** What the removals and the installs done so far leave at one path, over the re-homed directory. */
  ghost predicate WrittenAt(path: string, files: Files, mid: Files, before: Files, home: string -> string,
          removals: seq<string>, installs: seq<Finding>, keep: set<string>)
  {
    match InstalledAt(installs, home, path)
    case Some(f) => path in files && files[path] == f
    case None =>
      && (path in files <==> path in mid && (path in keep || !Leaves(before, removals, installs, path)))
      && (path in files ==> files[path] == mid[path])
  }

  /** The write's whole promise, key by key. */
  ghost predicate Exact(key: string, files: Files, before: Files, home: string -> string, removals: seq<string>,
          installs: seq<Finding>) {
    match LastInstall(installs, key)
    case Some(f) => Holds(files, home(key), key) && files[home(key)] == f && forall path :: Holds(files, path, key) ==> path == home(key)
    case None =>
      if key in removals then forall path :: !Holds(files, path, key)
      else forall f :: Serves(files, home, key, f) <==> Serves(before, home, key, f)
  }

  // ---- a revision's plan ----

  datatype Layer = RepoLayer | LocalLayer

  datatype EditResult = Keep(n: Finding) | Drop | Fails

  type RecordEdit = (Layer, Finding) -> EditResult

  datatype Refusal = Collision(key: string, layer: Layer) | EditFailed

  /** The kept records, in order. */
  function Image(rows: seq<Finding>, edit: RecordEdit, layer: Layer): seq<Finding> {
    if rows == [] then [] else
      var f := rows[|rows| - 1];
      Image(rows[..|rows| - 1], edit, layer) + match edit(layer, f) case Keep(n) => [n] case _ => []
  }

  ghost predicate InImage(image: seq<Finding>, key: string) { exists f :: f in image && KeyOf(f) == key }

  /** The first row the plan refuses over. */
  ghost function RowsRefusal(rows: seq<Finding>, edit: RecordEdit, layer: Layer): Option<Refusal> {
    if rows == [] then None else
      var init, f := rows[..|rows| - 1], rows[|rows| - 1];
      if RowsRefusal(init, edit, layer).Some? then RowsRefusal(init, edit, layer)
      else match edit(layer, f)
        case Fails => Some(EditFailed)
        case Drop => None
        case Keep(n) => if InImage(Image(init, edit, layer), KeyOf(n)) then Some(Collision(KeyOf(n), layer)) else None
  }

  function EditsFor(f: Finding, edit: RecordEdit): seq<Edit> {
    match edit(LocalLayer, f)
    case Keep(n) => if n == f then [] else if KeyOf(n) != KeyOf(f) then [Removal(KeyOf(f)), Install(n)] else [Install(n)]
    case Drop => [Removal(KeyOf(f))]
    case Fails => []
  }

  function EditsOf(rows: seq<Finding>, edit: RecordEdit): seq<Edit> {
    if rows == [] then [] else EditsOf(rows[..|rows| - 1], edit) + EditsFor(rows[|rows| - 1], edit)
  }

  /** Some record of the read was edited into r, which now answers for the key. */
  ghost predicate EditedInto(rows: seq<Finding>, edit: RecordEdit, key: string, r: Finding) {
    exists f :: f in rows && edit(LocalLayer, f) == Keep(r) && KeyOf(r) == key
  }

  ghost predicate ParkedOf(parked: map<string, string>, files: Files) {
    && (forall path :: path in parked <==> path in files)
    && forall path :: path in parked ==> parked[path] == KeyOf(files[path])
  }

  class Store {
    const home: string -> string
    var repo: seq<Finding>
    var files: Files
    var view: View

    constructor (home: string -> string, repo: seq<Finding>, files: Files)
      ensures this.home == home && this.repo == repo && this.files == files && view == View(map[], map[])
    {
      this.home, this.repo, this.files, view := home, repo, files, View(map[], map[]);
    }

    /** One read over the directory's names in name order. */
    method Load(names: seq<string>)
      requires StrictlyAscending(names, Itself) && forall path :: path in names <==> path in files
      modifies this`view
      ensures view == ReadNames(files, home, names) && ReadOf(view, files, home)
    {
      view := View(map[], map[]);
      for i := 0 to |names|
        invariant view == ReadNames(files, home, names[..i])
      {
        assert names[..i + 1][..i] == names[..i];
        var f := files[names[i]];
        var key := KeyOf(f);
        var served := (if key in view.served then view.served[key] else []) + [names[i]];
        if key in view.records && names[i] != home(key) {
          view := view.(served := view.served[key := served]);
        } else {
          view := View(view.served[key := served], view.records[key := f]);
        }
      }
      assert names[..|names|] == names;
      ReadIsRead(files, home, names);
    }

    /** Every path the last read found a record at, with its key. */
    method ParkedPaths() returns (parked: map<string, string>)
      requires ReadOf(view, files, home)
      ensures ParkedOf(parked, files)
    {
      parked := map[];
      var pending := view.served.Keys;
      ServedKeys(view, files, home);
      while pending != {}
        invariant pending <= view.served.Keys
        invariant forall path :: path in parked ==> path in files && parked[path] == KeyOf(files[path])
        invariant forall path :: path in files && KeyOf(files[path]) !in pending ==> path in parked
        decreases pending
      {
        var key :| key in pending;
        parked := ParkNames(parked, key, view.served[key]);
        pending := pending - {key};
      }
    }

    method ParkNames(parked: map<string, string>, key: string,
            names: seq<string>) returns (parked': map<string, string>)
      ensures forall path :: path in parked' <==> path in parked || path in names
      ensures forall path :: path in parked' ==> parked'[path] == if path in names then key else parked[path]
    {
      parked' := parked;
      for i := 0 to |names|
        invariant forall path :: path in parked' <==> path in parked || path in names[..i]
        invariant forall path :: path in parked' ==> parked'[path] == if path in names[..i] then key else parked[path]
      {
        assert names[..i + 1] == names[..i] + [names[i]];
        parked' := parked'[names[i] := key];
      }
      assert names[..|names|] == names;
    }

    /** A kept record parked at a path goes to its own path, unless it already has. */
    method RehomePath(path: string, leaving: set<string>, parked: map<string, string>, rehomed: set<string>,
            ghost before: Files) returns (added: set<string>)
      requires ReadOf(view, before, home) && ParkedOf(parked, before)
      requires RehomedOver(files, before, view, home, leaving, rehomed)
      modifies this`files
      ensures RehomedOver(files, before, view, home, leaving, rehomed + added) && added !! rehomed
      ensures Parked(before, home, leaving, path) ==> home(KeyOf(before[path])) in rehomed + added
    {
      added := {};
      assert rehomed + added == rehomed;
      if path !in parked || parked[path] in leaving || home(parked[path]) in rehomed || home(parked[path]) == path {
        return;
      }
      var key := parked[path];
      ServedKeys(view, before, home);
      ghost var was := files;
      files := files[home(key) := view.records[key]];
      added := {home(key)};
      RehomeOne(files, was, before, view, home, leaving, rehomed, key);
    }

    /** One round of the re-home: each pending path's parked record goes to its own path. */
    method RehomeRound(pending: set<string>, destinations: set<string>, leaving: set<string>,
            parked: map<string, string>, rehomed: set<string>, ghost before: Files) returns (rehomed': set<string>,
            next: set<string>)
      requires ReadOf(view, before, home) && ParkedOf(parked, before)
      requires RehomedOver(files, before, view, home, leaving, rehomed) && pending <= destinations + rehomed
      requires Settled(before, home, leaving, rehomed, destinations + rehomed - pending)
      modifies this`files
      ensures RehomedOver(files, before, view, home, leaving, rehomed') && next <= rehomed'
      ensures rehomed' == rehomed + next && next !! rehomed
      ensures Settled(before, home, leaving, rehomed', destinations + rehomed' - next)
    {
      rehomed', next := rehomed, {};
      var work := pending;
      RoundStarts(before, home, leaving, destinations, rehomed, pending);
      while work != {}
        invariant work <= pending
        invariant RehomedOver(files, before, view, home, leaving, rehomed')
        invariant Round(before, home, leaving, destinations, rehomed, rehomed', work, next)
        decreases work
      {
        var path :| path in work;
        var added := RehomePath(path, leaving, parked, rehomed', before);
        RoundNext(before, home, leaving, destinations, rehomed, rehomed', work, next, path, added);
        work := work - {path};
        rehomed', next := rehomed' + added, next + added;
      }
      RoundEnds(before, home, leaving, destinations, rehomed, rehomed', next);
    }

    /** The fixpoint, over any order of the paths: every kept record at a path the write lands on gets its own path. */
    method RehomeParked(destinations: set<string>, leaving: set<string>) returns (rehomed: set<string>)
      requires ReadOf(view, files, home)
      modifies this`files
      ensures RehomedOver(files, old(files), view, home, leaving, rehomed)
      ensures Settled(old(files), home, leaving, rehomed, destinations + rehomed)
    {
      ghost var before := files;
      var parked := ParkedPaths();
      rehomed := {};
      ghost var homes := set key | key in view.records :: home(key);
      var pending := destinations;
      while pending != {}
        invariant RehomedOver(files, before, view, home, leaving, rehomed) && pending <= destinations + rehomed
        invariant Settled(before, home, leaving, rehomed, destinations + rehomed - pending)
        decreases homes - rehomed, pending
      {
        ghost var was := rehomed;
        rehomed, pending := RehomeRound(pending, destinations, leaving, parked, rehomed, before);
        Advances(files, before, view, home, leaving, was, rehomed, pending, homes);
      }
    }

    method RemoveServed(key: string, keep: set<string>, ghost before: Files)
      requires ReadOf(view, before, home)
      modifies this`files
      ensures forall path :: path in files <==> path in old(files) && (path in keep || !Holds(before, path, key))
      ensures forall path :: path in files ==> files[path] == old(files)[path]
    {
      var names := if key in view.served then view.served[key] else [];
      for i := 0 to |names|
        invariant forall path :: path in files <==> path in old(files) && (path in keep || path !in names[..i])
        invariant forall path :: path in files ==> files[path] == old(files)[path]
      {
        assert names[..i + 1] == names[..i] + [names[i]];
        if names[i] !in keep {
          files := files - {names[i]};
        }
      }
      assert names[..|names|] == names;
    }

    method RemoveAll(removals: seq<string>, keep: set<string>, ghost before: Files)
      requires ReadOf(view, before, home)
      requires forall path :: path in keep || path !in files || (path in before && before[path] == files[path])
      modifies this`files
      ensures forall path :: WrittenAt(path, files, old(files), before, home, removals, [], keep)
    {
      ghost var mid := files;
      for i := 0 to |removals|
        invariant forall path :: WrittenAt(path, files, mid, before, home, removals[..i], [], keep)
      {
        ghost var was, done := files, removals[..i + 1];
        RemoveServed(removals[i], keep, before);
        forall path ensures WrittenAt(path, files, mid, before, home, done, [], keep) {
          RemoveNext(path, files, was, mid, before, home, removals, i, keep);
        }
      }
      assert removals[..|removals|] == removals;
    }

    /** Each install lands at its own path, and the key's other names go. */
    method InstallAll(installs: seq<Finding>, keep: set<string>, removals: seq<string>, ghost mid: Files,
            ghost before: Files)
      requires ReadOf(view, before, home)
      requires forall f :: f in installs ==> home(KeyOf(f)) in keep
      requires forall path :: WrittenAt(path, files, mid, before, home, removals, [], keep)
      modifies this`files
      ensures forall path :: WrittenAt(path, files, mid, before, home, removals, installs, keep)
    {
      assert installs[..0] == [];
      for i := 0 to |installs|
        invariant forall path :: WrittenAt(path, files, mid, before, home, removals, installs[..i], keep)
      {
        ghost var was := files;
        var f := installs[i];
        files := files[home(KeyOf(f)) := f];
        RemoveServed(KeyOf(f), keep, before);
        ghost var done := installs[..i + 1];
        forall path ensures WrittenAt(path, files, mid, before, home, removals, done, keep) {
          InstallNext(path, files, was, mid, before, home, removals, installs, i, keep);
        }
      }
      assert installs[..|installs|] == installs;
    }

    /**
     The overlay write is exact: an installed key is left at one entry, its own path's, a removed key at none, and
     every other key still serves the record it served, through chains and swaps of renames and parked entries.
     */
    method ApplyOverlayEdits(edits: seq<Edit>)
      requires Injective(home) && ReadOf(view, files, home)
      modifies this`files
      ensures forall key :: Exact(key, files, old(files), home, RemovalsOf(edits), InstallsOf(edits))
    {
      ghost var before := files;
      var removals: seq<string>, installs: seq<Finding> := [], [];
      var destinations: set<string>, leaving: set<string> := {}, {};
      for i := 0 to |edits|
        invariant removals == RemovalsOf(edits[..i]) && installs == InstallsOf(edits[..i])
        invariant forall key :: key in leaving <==> key in removals
        invariant forall path :: path in destinations <==> InstalledAt(installs, home, path).Some?
      {
        assert edits[..i + 1][..i] == edits[..i];
        match edits[i] {
          case Removal(key) =>
            removals := removals + [key];
            leaving := leaving + {key};
          case Install(f) =>
            destinations := destinations + {home(KeyOf(f))};
            assert (installs + [f])[..|installs|] == installs;
            installs := installs + [f];
        }
      }
      assert edits[..|edits|] == edits;
      var rehomed := RehomeParked(destinations, leaving);
      ghost var mid := files;
      var keep := destinations + rehomed;
      RemoveAll(removals, keep, before);
      InstalledHomes(installs, home);
      InstallAll(installs, keep, removals, mid, before);
      forall key ensures Exact(key, files, before, home, removals, installs) {
        WriteIsExact(key, files, mid, before, view, home, leaving, rehomed, removals, installs, keep);
      }
    }

    /**
     A revision under the document lock: every record of each layer through the edit, refused whole on a failed edit
     or a within-layer collision, else the document rewritten only when a row changed and the overlay written exactly.
     */
    method Revise(names: seq<string>, edit: RecordEdit, check: bool) returns (refused: Option<Refusal>,
            ghost rows: seq<Finding>)
      requires Injective(home) && StrictlyAscending(names, Itself) && forall path :: path in names <==> path in files
      modifies this
      ensures Lists(rows, view.records) && ReadOf(view, old(files), home)
      ensures refused == if RowsRefusal(old(repo), edit, RepoLayer).Some? then RowsRefusal(old(repo), edit, RepoLayer)
                         else RowsRefusal(rows, edit, LocalLayer)
      ensures refused.Some? || check ==> repo == old(repo) && files == old(files)
      ensures refused.None? && !check ==>
                && repo == (if Image(old(repo), edit, RepoLayer) == old(repo) then old(repo) else SortBy(Image(old(repo), edit, RepoLayer), KeyOf))
                && forall key, r :: Serves(files, home, key, r) <==> EditedInto(rows, edit, key, r)
    {
      ghost var before := files;
      Load(names);
      ReadKeyed(view, files, home);
      var listed := ListRecords(view.records);
      rows := listed;
      var next, changed;
      refused, next, changed := PlanRepo(edit);
      if refused.Some? {
        return;
      }
      var edits;
      refused, edits := PlanOverlay(listed, edit);
      if refused.Some? || check {
        return;
      }
      if changed {
        // The rows are ordered by symbol, then selection: key order, as NUL sorts below every symbol character.
        repo := SortBy(next, KeyOf);
      }
      ApplyOverlayEdits(edits);
      forall key, r ensures Serves(files, home, key, r) <==> EditedInto(rows, edit, key, r) {
        ImageServed(files, before, view, home, rows, edit, key, r);
      }
    }

    method PlanRepo(edit: RecordEdit) returns (refused: Option<Refusal>, next: seq<Finding>, changed: bool)
      ensures refused == RowsRefusal(repo, edit, RepoLayer)
      ensures refused.None? ==> next == Image(repo, edit, RepoLayer) && (changed <==> next != repo)
    {
      next, changed := [], false;
      var seen: set<string> := {};
      for i := 0 to |repo|
        invariant RowsRefusal(repo[..i], edit, RepoLayer).None? && next == Image(repo[..i], edit, RepoLayer)
        invariant forall key :: key in seen <==> InImage(next, key)
        invariant |next| <= i && (changed <==> next != repo[..i])
      {
        assert repo[..i + 1][..i] == repo[..i];
        match edit(RepoLayer, repo[i]) {
          case Fails =>
            RefusalStands(repo, edit, RepoLayer, i + 1);
            return Some(EditFailed), next, changed;
          case Drop => changed := true;
          case Keep(n) =>
            if KeyOf(n) in seen {
              RefusalStands(repo, edit, RepoLayer, i + 1);
              return Some(Collision(KeyOf(n), RepoLayer)), next, changed;
            }
            InImageNext(next, n);
            seen := seen + {KeyOf(n)};
            SameRows(next, repo, i, n);
            changed := changed || n != repo[i];
            next := next + [n];
        }
      }
      assert repo[..|repo|] == repo;
      refused := None;
    }

    method PlanOverlay(rows: seq<Finding>, edit: RecordEdit) returns (refused: Option<Refusal>, edits: seq<Edit>)
      ensures refused == RowsRefusal(rows, edit, LocalLayer)
      ensures refused.None? ==> edits == EditsOf(rows, edit)
    {
      edits := [];
      var seen: set<string> := {};
      for i := 0 to |rows|
        invariant RowsRefusal(rows[..i], edit, LocalLayer).None? && edits == EditsOf(rows[..i], edit)
        invariant forall key :: key in seen <==> InImage(Image(rows[..i], edit, LocalLayer), key)
      {
        assert rows[..i + 1][..i] == rows[..i];
        var f := rows[i];
        match edit(LocalLayer, f) {
          case Fails =>
            RefusalStands(rows, edit, LocalLayer, i + 1);
            return Some(EditFailed), edits;
          case Drop => edits := edits + [Removal(KeyOf(f))];
          case Keep(n) =>
            if KeyOf(n) in seen {
              RefusalStands(rows, edit, LocalLayer, i + 1);
              return Some(Collision(KeyOf(n), LocalLayer)), edits;
            }
            InImageNext(Image(rows[..i], edit, LocalLayer), n);
            seen := seen + {KeyOf(n)};
            if n == f {
              continue;
            }
            if KeyOf(n) != KeyOf(f) {
              edits := edits + [Removal(KeyOf(f)), Install(n)];
            } else {
              edits := edits + [Install(n)];
            }
        }
      }
      assert rows[..|rows|] == rows;
      refused := None;
    }
  }

  // ---- the plan's edits, key by key ----

  lemma {:induction false} SameRows(next: seq<Finding>, rows: seq<Finding>, i: nat, n: Finding)
    requires i < |rows| && |next| <= i
    ensures next + [n] == rows[..i + 1] <==> next == rows[..i] && n == rows[i]
  {
    if next + [n] == rows[..i + 1] {
      assert next == (next + [n])[..|next|] == rows[..i];
      assert (next + [n])[i] == rows[i];
    }
  }

  lemma {:induction false} InImageNext(image: seq<Finding>, n: Finding)
    ensures forall key :: InImage(image + [n], key) <==> InImage(image, key) || key == KeyOf(n)
  {
    forall key ensures InImage(image + [n], key) <==> InImage(image, key) || key == KeyOf(n) {
      if InImage(image, key) {
        var f :| f in image && KeyOf(f) == key;
        assert f in image + [n];
      }
      assert n in image + [n];
    }
  }

  lemma {:induction false} RefusalStands(rows: seq<Finding>, edit: RecordEdit, layer: Layer, n: nat)
    requires n <= |rows| && RowsRefusal(rows[..n], edit, layer).Some?
    ensures RowsRefusal(rows, edit, layer) == RowsRefusal(rows[..n], edit, layer)
    decreases |rows|
  {
    if n == |rows| {
      assert rows[..n] == rows;
    } else {
      assert rows[..|rows| - 1][..n] == rows[..n];
      RefusalStands(rows[..|rows| - 1], edit, layer, n);
    }
  }

  lemma {:induction false} ImageExact(rows: seq<Finding>, edit: RecordEdit, layer: Layer, r: Finding)
    ensures r in Image(rows, edit, layer) <==> exists f :: f in rows && edit(layer, f) == Keep(r)
  {
    if rows != [] {
      ImageExact(rows[..|rows| - 1], edit, layer, r);
      assert rows == rows[..|rows| - 1] + [rows[|rows| - 1]];
      assert forall f :: f in rows <==> f in rows[..|rows| - 1] || f == rows[|rows| - 1];
    }
  }

  lemma {:induction false} DistinctImageNext(image: seq<Finding>, n: Finding)
    ensures DistinctKeys(image + [n], KeyOf) <==> DistinctKeys(image, KeyOf) && !InImage(image, KeyOf(n))
  {
    var all := image + [n];
    assert forall i :: 0 <= i < |image| ==> all[i] == image[i] && image[i] in image;
    if DistinctKeys(all, KeyOf) {
      forall g | g in image ensures KeyOf(g) != KeyOf(n) {
        var i :| 0 <= i < |image| && image[i] == g;
        assert KeyOf(all[i]) != KeyOf(all[|image|]);
      }
      forall i, j | 0 <= i < j < |image| ensures KeyOf(image[i]) != KeyOf(image[j]) {
        assert KeyOf(all[i]) != KeyOf(all[j]);
      }
    }
  }

  ghost predicate NoneFails(rows: seq<Finding>, edit: RecordEdit, layer: Layer) { forall f :: f in rows ==> !edit(layer, f).Fails? }

  /** A plan is refused exactly when an edit fails or two kept records take one key. */
  lemma {:induction false} PlanRefusedIff(rows: seq<Finding>, edit: RecordEdit, layer: Layer)
    ensures RowsRefusal(rows, edit, layer).None? <==> NoneFails(rows, edit, layer) && DistinctKeys(Image(rows, edit, layer), KeyOf)
  {
    if rows != [] {
      var init, f := rows[..|rows| - 1], rows[|rows| - 1];
      PlanRefusedIff(init, edit, layer);
      assert rows == init + [f];
      assert forall g :: g in rows <==> g in init || g == f;
      assert NoneFails(rows, edit, layer) <==> NoneFails(init, edit, layer) && !edit(layer, f).Fails?;
      var image := Image(init, edit, layer);
      assert image + [] == image;
      if edit(layer, f).Keep? {
        DistinctImageNext(image, edit(layer, f).n);
      }
    }
  }

  lemma {:induction false} ReadKeyed(v: View, files: Files, home: string -> string)
    requires ReadOf(v, files, home)
    ensures Keyed(v.records)
  {
    forall key | key in v.records ensures KeyOf(v.records[key]) == key {
      ServesUnique(files, home, key, v.records[key], v.records[key]);
    }
  }

  predicate Removes(f: Finding, edit: RecordEdit) {
    edit(LocalLayer, f).Drop? || (edit(LocalLayer, f).Keep? && KeyOf(edit(LocalLayer, f).n) != KeyOf(f))
  }

  lemma {:induction false} RemovalsConcat(xs: seq<Edit>, ys: seq<Edit>)
    ensures RemovalsOf(xs + ys) == RemovalsOf(xs) + RemovalsOf(ys)
    ensures InstallsOf(xs + ys) == InstallsOf(xs) + InstallsOf(ys)
  {
    if ys == [] {
      assert xs + ys == xs;
    } else {
      RemovalsConcat(xs, ys[..|ys| - 1]);
      assert (xs + ys)[..|xs + ys| - 1] == xs + ys[..|ys| - 1];
    }
  }

  lemma {:induction false} EditsForOne(f: Finding, edit: RecordEdit)
    ensures RemovalsOf(EditsFor(f, edit)) == if Removes(f, edit) then [KeyOf(f)] else []
    ensures InstallsOf(EditsFor(f, edit)) == match edit(LocalLayer, f) case Keep(n) => if n == f then [] else [n] case _ => []
  {
    var es := EditsFor(f, edit);
    if |es| == 2 {
      var first := es[..1];
      assert first == [es[0]] && first[..0] == [];
      assert RemovalsOf(first) == [KeyOf(f)] && InstallsOf(first) == [];
    } else if |es| == 1 {
      assert es[..0] == [];
    }
  }

  lemma {:induction false} PlanRemovals(rows: seq<Finding>, edit: RecordEdit, key: string)
    ensures key in RemovalsOf(EditsOf(rows, edit)) <==> RemovedBy(rows, edit, key)
  {
    if rows != [] {
      PlanRemovals(rows[..|rows| - 1], edit, key);
      RemovedByLast(rows, edit, key);
      RemovalsLast(rows, edit);
    }
  }

  ghost predicate RemovedBy(rows: seq<Finding>, edit: RecordEdit, key: string) {
    exists f :: f in rows && KeyOf(f) == key && Removes(f, edit)
  }

  lemma {:induction false} RemovedByLast(rows: seq<Finding>, edit: RecordEdit, key: string)
    requires rows != []
    ensures var f := rows[|rows| - 1]; RemovedBy(rows, edit, key) <==> RemovedBy(rows[..|rows| - 1], edit, key) || (KeyOf(f) == key && Removes(f, edit))
  {
    assert rows == rows[..|rows| - 1] + [rows[|rows| - 1]];
    assert forall g :: g in rows <==> g in rows[..|rows| - 1] || g == rows[|rows| - 1];
  }

  lemma {:induction false} RemovalsLast(rows: seq<Finding>, edit: RecordEdit)
    requires rows != []
    ensures var f := rows[|rows| - 1];
            RemovalsOf(EditsOf(rows, edit)) == RemovalsOf(EditsOf(rows[..|rows| - 1], edit)) + if Removes(f, edit) then [KeyOf(f)] else []
  {
    RemovalsConcat(EditsOf(rows[..|rows| - 1], edit), EditsFor(rows[|rows| - 1], edit));
    EditsForOne(rows[|rows| - 1], edit);
  }

  lemma {:induction false} LastInstallAppend(xs: seq<Finding>, n: Finding, key: string)
    ensures LastInstall(xs + [n], key) == if KeyOf(n) == key then Some(n) else LastInstall(xs, key)
  {
    assert (xs + [n])[..|xs|] == xs;
  }

  /** The key's install, if any, is a changed record of the read's image. */
  lemma {:induction false} PlanInstalls(rows: seq<Finding>, edit: RecordEdit, key: string)
    ensures LastInstall(InstallsOf(EditsOf(rows, edit)), key).Some? ==>
              InstallsFrom(rows, edit, key, LastInstall(InstallsOf(EditsOf(rows, edit)), key).value)
    ensures LastInstall(InstallsOf(EditsOf(rows, edit)), key).None? ==> forall n :: !InstallsFrom(rows, edit, key, n)
  {
    if rows != [] {
      PlanInstalls(rows[..|rows| - 1], edit, key);
      InstallsLast(rows, edit, key);
      InstallsFromNext(rows, edit, key);
    }
  }

  /** The last row's install answers for its key; any other key keeps its answer. */
  lemma {:induction false} InstallsLast(rows: seq<Finding>, edit: RecordEdit, key: string)
    requires rows != []
    ensures var f := rows[|rows| - 1];
            LastInstall(InstallsOf(EditsOf(rows, edit)), key)
              == if edit(LocalLayer, f).Keep? && edit(LocalLayer, f).n != f && KeyOf(edit(LocalLayer, f).n) == key
                 then Some(edit(LocalLayer, f).n) else LastInstall(InstallsOf(EditsOf(rows[..|rows| - 1], edit)), key)
  {
    var f, was := rows[|rows| - 1], InstallsOf(EditsOf(rows[..|rows| - 1], edit));
    RemovalsConcat(EditsOf(rows[..|rows| - 1], edit), EditsFor(f, edit));
    EditsForOne(f, edit);
    assert was + [] == was;
    if edit(LocalLayer, f).Keep? && edit(LocalLayer, f).n != f {
      LastInstallAppend(was, edit(LocalLayer, f).n, key);
    }
  }

  ghost predicate InstallsFrom(rows: seq<Finding>, edit: RecordEdit, key: string, n: Finding) {
    exists f :: f in rows && edit(LocalLayer, f) == Keep(n) && n != f && KeyOf(n) == key
  }

  lemma {:induction false} InstallsFromNext(rows: seq<Finding>, edit: RecordEdit, key: string)
    requires rows != []
    ensures forall n :: InstallsFrom(rows, edit, key, n) <==>
              InstallsFrom(rows[..|rows| - 1], edit, key, n)
              || (edit(LocalLayer, rows[|rows| - 1]) == Keep(n) && n != rows[|rows| - 1] && KeyOf(n) == key)
  {
    assert rows == rows[..|rows| - 1] + [rows[|rows| - 1]];
    assert forall f :: f in rows <==> f in rows[..|rows| - 1] || f == rows[|rows| - 1];
  }

  /** Two rows edited into one key are one record, in an unrefused plan. */
  lemma {:induction false} OneImagePerKey(rows: seq<Finding>, edit: RecordEdit, n: Finding, m: Finding)
    requires RowsRefusal(rows, edit, LocalLayer).None? && KeyOf(n) == KeyOf(m)
    requires n in Image(rows, edit, LocalLayer) && m in Image(rows, edit, LocalLayer)
    ensures n == m
  {
    PlanRefusedIff(rows, edit, LocalLayer);
    var image := Image(rows, edit, LocalLayer);
    assert forall i, j :: 0 <= i < j < |image| ==> KeyOf(image[i]) != KeyOf(image[j]);
    var i :| 0 <= i < |image| && image[i] == n;
    var j :| 0 <= j < |image| && image[j] == m;
    assert i == j;
  }

  lemma {:induction false} OneRowPerKey(rows: seq<Finding>, v: View, f: Finding, g: Finding)
    requires Lists(rows, v.records) && f in rows && g in rows && KeyOf(f) == KeyOf(g)
    ensures f == g
  {
  }

  /** After the write, exactly the edit's image is served: the overlay is the plan's. */
  lemma {:induction false} ImageServed(files: Files, before: Files, v: View, home: string -> string, rows: seq<Finding>,
          edit: RecordEdit, key: string, r: Finding)
    requires ReadOf(v, before, home) && Lists(rows, v.records) && RowsRefusal(rows, edit, LocalLayer).None?
    requires Exact(key, files, before, home, RemovalsOf(EditsOf(rows, edit)), InstallsOf(EditsOf(rows, edit)))
    ensures Serves(files, home, key, r) <==> EditedInto(rows, edit, key, r)
  {
    var installed := LastInstall(InstallsOf(EditsOf(rows, edit)), key);
    PlanInstalls(rows, edit, key);
    if installed.Some? {
      InstalledImage(rows, edit, key, installed.value, r);
    } else {
      UninstalledImage(before, v, home, rows, edit, key, r);
    }
  }

  lemma {:induction false} InstalledImage(rows: seq<Finding>, edit: RecordEdit, key: string, n: Finding, r: Finding)
    requires RowsRefusal(rows, edit, LocalLayer).None? && InstallsFrom(rows, edit, key, n)
    ensures EditedInto(rows, edit, key, r) <==> r == n
  {
    ImageExact(rows, edit, LocalLayer, r);
    ImageExact(rows, edit, LocalLayer, n);
    if EditedInto(rows, edit, key, r) {
      OneImagePerKey(rows, edit, r, n);
    }
  }

  lemma {:induction false} UninstalledImage(before: Files, v: View, home: string -> string, rows: seq<Finding>,
          edit: RecordEdit, key: string, r: Finding)
    requires ReadOf(v, before, home) && Lists(rows, v.records) && RowsRefusal(rows, edit, LocalLayer).None?
    requires forall n :: !InstallsFrom(rows, edit, key, n)
    ensures EditedInto(rows, edit, key, r) <==> key !in RemovalsOf(EditsOf(rows, edit)) && Serves(before, home, key, r)
  {
    PlanRefusedIff(rows, edit, LocalLayer);
    PlanRemovals(rows, edit, key);
    if EditedInto(rows, edit, key, r) {
      RowUnchanged(rows, edit, v, key, r);
      assert v.records[key] == r;
    }
    if key !in RemovalsOf(EditsOf(rows, edit)) && Serves(before, home, key, r) {
      ServedIsRow(v, before, home, rows, key, r);
      assert !Removes(r, edit) && !InstallsFrom(rows, edit, key, edit(LocalLayer, r).n);
    }
  }

  lemma {:induction false} ServedIsRow(v: View, before: Files, home: string -> string, rows: seq<Finding>, key: string,
          r: Finding)
    requires ReadOf(v, before, home) && Lists(rows, v.records) && Serves(before, home, key, r)
    ensures r in rows && KeyOf(r) == key
  {
    assert exists path :: Holds(before, path, key);
    assert key in v.records;
    ServesUnique(before, home, key, r, v.records[key]);
  }

  lemma {:induction false} RowUnchanged(rows: seq<Finding>, edit: RecordEdit, v: View, key: string, r: Finding)
    requires Lists(rows, v.records) && EditedInto(rows, edit, key, r)
    requires forall n :: !InstallsFrom(rows, edit, key, n)
    ensures r in rows && KeyOf(r) == key && edit(LocalLayer, r) == Keep(r)
    ensures !exists f :: f in rows && KeyOf(f) == key && Removes(f, edit)
  {
    assert !InstallsFrom(rows, edit, key, r);
    var f :| f in rows && edit(LocalLayer, f) == Keep(r) && KeyOf(r) == key;
    assert r == f;
    forall g | g in rows && KeyOf(g) == key ensures !Removes(g, edit) {
      OneRowPerKey(rows, v, f, g);
    }
  }

  lemma {:induction false} InstalledHomes(installs: seq<Finding>, home: string -> string)
    ensures forall f :: f in installs ==> InstalledAt(installs, home, home(KeyOf(f))).Some?
  {
    if installs != [] {
      InstalledHomes(installs[..|installs| - 1], home);
      assert installs == installs[..|installs| - 1] + [installs[|installs| - 1]];
    }
  }

  lemma {:induction false} ServedKeys(v: View, files: Files, home: string -> string)
    requires ReadOf(v, files, home)
    ensures forall path :: path in files ==> KeyOf(files[path]) in v.served && KeyOf(files[path]) in v.records
    ensures forall key :: key in v.served ==> key in v.records
  {
    forall path | path in files ensures KeyOf(files[path]) in v.served {
      assert Holds(files, path, KeyOf(files[path]));
    }
  }

  lemma {:induction false} RehomedFrame(path: string, files: Files, was: Files, v: View, home: string -> string,
          leaving: set<string>)
    requires Rehomed(path, was, v, home, leaving) && path in files && path in was && files[path] == was[path]
    ensures Rehomed(path, files, v, home, leaving)
  {
    var key :| key in v.records && key !in leaving && home(key) == path && was[path] == v.records[key];
  }

  lemma {:induction false} RehomeOne(files: Files, was: Files, before: Files, v: View, home: string -> string,
          leaving: set<string>, rehomed: set<string>, key: string)
    requires key in v.records && key !in leaving && home(key) !in rehomed
    requires RehomedOver(was, before, v, home, leaving, rehomed) && files == was[home(key) := v.records[key]]
    ensures RehomedOver(files, before, v, home, leaving, rehomed + {home(key)})
  {
    assert Rehomed(home(key), files, v, home, leaving);
    forall p | p in rehomed ensures Rehomed(p, files, v, home, leaving) {
      assert Rehomed(p, was, v, home, leaving);
      RehomedFrame(p, files, was, v, home, leaving);
    }
  }

  /** A round's progress: what it re-homed so far is next, and only the work left and next are unsettled. */
  ghost predicate Round(before: Files, home: string -> string, leaving: set<string>, destinations: set<string>,
          rehomed: set<string>, rehomed': set<string>, work: set<string>, next: set<string>)
  {
    rehomed' == rehomed + next && next !! rehomed && Settled(before, home, leaving, rehomed', destinations + rehomed' - (work + next))
  }

  lemma {:induction false} RoundStarts(before: Files, home: string -> string, leaving: set<string>,
          destinations: set<string>, rehomed: set<string>, pending: set<string>)
    requires Settled(before, home, leaving, rehomed, destinations + rehomed - pending)
    ensures Round(before, home, leaving, destinations, rehomed, rehomed, pending, {})
  {
    assert pending + {} == pending && rehomed + {} == rehomed;
  }

  lemma {:induction false} RoundEnds(before: Files, home: string -> string, leaving: set<string>,
          destinations: set<string>, rehomed: set<string>, rehomed': set<string>, next: set<string>)
    requires Round(before, home, leaving, destinations, rehomed, rehomed', {}, next)
    ensures Settled(before, home, leaving, rehomed', destinations + rehomed' - next)
  {
    assert {} + next == next;
  }

  /** Handling one path settles it; only freshly re-homed paths are open anew. */
  lemma {:induction false} RoundNext(before: Files, home: string -> string, leaving: set<string>,
          destinations: set<string>, rehomed: set<string>, rehomed': set<string>, work: set<string>, next: set<string>,
          path: string, added: set<string>)
    requires Round(before, home, leaving, destinations, rehomed, rehomed', work, next) && path in work && added !! rehomed'
    requires Parked(before, home, leaving, path) ==> home(KeyOf(before[path])) in rehomed' + added
    ensures Round(before, home, leaving, destinations, rehomed, rehomed' + added, work - {path}, next + added)
  {
    assert rehomed' + added == rehomed + (next + added);
    forall p | p in destinations + (rehomed' + added) - (work - {path} + (next + added)) && Parked(before, home, leaving, p)
      ensures home(KeyOf(before[p])) in rehomed' + added
    {
      if p != path {
        assert p in destinations + rehomed' - (work + next);
      }
    }
  }

  lemma {:induction false} RemoveNext(path: string, files: Files, was: Files, mid: Files, before: Files,
          home: string -> string, removals: seq<string>, i: nat, keep: set<string>)
    requires i < |removals| && WrittenAt(path, was, mid, before, home, removals[..i], [], keep)
    requires forall p :: p in keep || p !in mid || (p in before && before[p] == mid[p])
    requires path in files <==> path in was && (path in keep || !Holds(before, path, removals[i]))
    requires path in files ==> files[path] == was[path]
    ensures WrittenAt(path, files, mid, before, home, removals[..i + 1], [], keep)
  {
    assert removals[..i + 1] == removals[..i] + [removals[i]];
  }

  /** A round either re-homes another key's path or is the last. */
  lemma {:induction false} Advances(files: Files, before: Files, v: View, home: string -> string, leaving: set<string>,
          was: set<string>, rehomed: set<string>, next: set<string>, homes: set<string>)
    requires RehomedOver(files, before, v, home, leaving, rehomed) && rehomed == was + next && next !! was
    requires homes == set key | key in v.records :: home(key)
    ensures next != {} ==> homes - rehomed < homes - was
    ensures next == {} ==> homes - rehomed == homes - was
  {
    forall path | path in next ensures path in homes {
      assert Rehomed(path, files, v, home, leaving);
    }
    if next != {} {
      var path :| path in next;
      assert path in homes - was;
    }
  }

  lemma {:induction false} LastInstallNext(installs: seq<Finding>, i: nat, key: string, home: string -> string,
          path: string)
    requires i < |installs|
    ensures LastInstall(installs[..i + 1], key) == if KeyOf(installs[i]) == key then Some(installs[i]) else LastInstall(installs[..i], key)
    ensures InstalledAt(installs[..i + 1], home, path)
         == if home(KeyOf(installs[i])) == path then Some(installs[i]) else InstalledAt(installs[..i], home, path)
  {
    assert installs[..i + 1][..i] == installs[..i];
  }

  lemma {:induction false} InstalledIs(installs: seq<Finding>, home: string -> string, path: string)
    ensures InstalledAt(installs, home, path).Some? ==>
              InstalledAt(installs, home, path).value in installs && home(KeyOf(InstalledAt(installs, home, path).value)) == path
  {
    if installs != [] {
      InstalledIs(installs[..|installs| - 1], home, path);
      assert installs == installs[..|installs| - 1] + [installs[|installs| - 1]];
    }
  }

  lemma {:induction false} LastIsInstalled(installs: seq<Finding>, home: string -> string, key: string)
    requires Injective(home)
    ensures InstalledAt(installs, home, home(key)) == LastInstall(installs, key)
    ensures LastInstall(installs, key).Some? ==> KeyOf(LastInstall(installs, key).value) == key
  {
    if installs != [] {
      LastIsInstalled(installs[..|installs| - 1], home, key);
    }
  }

  lemma {:induction false} LastOfMember(installs: seq<Finding>, f: Finding)
    requires f in installs
    ensures LastInstall(installs, KeyOf(f)).Some?
  {
    var n := |installs| - 1;
    assert installs == installs[..n] + [installs[n]];
    if KeyOf(installs[n]) != KeyOf(f) {
      LastOfMember(installs[..n], f);
    }
  }

  lemma {:induction false} InstallNext(path: string, files: Files, was: Files, mid: Files, before: Files,
          home: string -> string, removals: seq<string>, installs: seq<Finding>, i: nat, keep: set<string>)
    requires i < |installs| && forall f :: f in installs ==> home(KeyOf(f)) in keep
    requires WrittenAt(path, was, mid, before, home, removals, installs[..i], keep)
    requires var landed := was[home(KeyOf(installs[i])) := installs[i]];
             && (path in files <==> path in landed && (path in keep || !Holds(before, path, KeyOf(installs[i]))))
             && (path in files ==> files[path] == landed[path])
    ensures WrittenAt(path, files, mid, before, home, removals, installs[..i + 1], keep)
  {
    LastInstallNext(installs, i, if path in before then KeyOf(before[path]) else "", home, path);
    InstalledIs(installs[..i], home, path);
    assert forall f :: f in installs[..i] ==> f in installs;
    assert installs[i] in installs;
  }

  // ---- the finished write, key by key ----

  lemma {:induction false} AtMostAntisymmetric(a: string, b: string)
    requires AtMost(a, b) && AtMost(b, a)
    ensures a == b
  {
    if a != b {
      LessAsymmetric(a, b);
    }
  }

  lemma {:induction false} ServesUnique(files: Files, home: string -> string, key: string, f: Finding, g: Finding)
    requires Serves(files, home, key, f) && Serves(files, home, key, g)
    ensures f == g && KeyOf(f) == key
  {
    if !Holds(files, home(key), key) {
      var p :| Holds(files, p, key) && f == files[p] && forall q :: Holds(files, q, key) ==> AtMost(p, q);
      var r :| Holds(files, r, key) && g == files[r] && forall q :: Holds(files, q, key) ==> AtMost(r, q);
      AtMostAntisymmetric(p, r);
    }
  }

  /** A finished write, as its steps leave it. */
  ghost predicate Written(files: Files, mid: Files, before: Files, v: View, home: string -> string,
          leaving: set<string>, rehomed: set<string>, removals: seq<string>, installs: seq<Finding>, keep: set<string>)
  {
    && Injective(home) && ReadOf(v, before, home)
    && (forall key :: key in leaving <==> key in removals)
    && RehomedOver(mid, before, v, home, leaving, rehomed)
    && Settled(before, home, leaving, rehomed, keep)
    && (forall path :: path in keep <==> path in rehomed || InstalledAt(installs, home, path).Some?)
    && (forall path :: WrittenAt(path, files, mid, before, home, removals, installs, keep))
  }

  /** Whoever holds a path after the write: an install, a re-homed key at its own path, or an untouched entry. */
  lemma {:induction false} HolderAfter(path: string, key: string, files: Files, mid: Files, before: Files, v: View,
          home: string -> string, leaving: set<string>, rehomed: set<string>, removals: seq<string>,
          installs: seq<Finding>, keep: set<string>)
    requires Written(files, mid, before, v, home, leaving, rehomed, removals, installs, keep) && Holds(files, path, key)
    ensures LastInstall(installs, key).Some? ==> path == home(key)
    ensures LastInstall(installs, key).None? ==>
              && key !in removals
              && ((path == home(key) && path in rehomed && key in v.records && files[path] == v.records[key])
                  || (path !in keep && Holds(before, path, key) && files[path] == before[path]))
  {
    assert WrittenAt(path, files, mid, before, home, removals, installs, keep);
    InstalledIs(installs, home, path);
    if InstalledAt(installs, home, path).Some? {
      LastOfMember(installs, files[path]);
    } else if path in rehomed {
      RehomedHolder(path, mid, before, v, home, leaving, key);
    }
  }

  lemma {:induction false} RehomedHolder(path: string, mid: Files, before: Files, v: View, home: string -> string,
          leaving: set<string>, key: string)
    requires ReadOf(v, before, home) && Rehomed(path, mid, v, home, leaving) && Holds(mid, path, key)
    ensures key in v.records && key !in leaving && home(key) == path && mid[path] == v.records[key]
  {
    var k :| k in v.records && k !in leaving && home(k) == path && path in mid && mid[path] == v.records[k];
    ServesUnique(before, home, k, v.records[k], v.records[k]);
  }

  lemma {:induction false} RehomedOwn(key: string, mid: Files, before: Files, v: View, home: string -> string,
          leaving: set<string>)
    requires Injective(home) && ReadOf(v, before, home) && Rehomed(home(key), mid, v, home, leaving)
    ensures key in v.records && home(key) in mid && mid[home(key)] == v.records[key] && KeyOf(v.records[key]) == key
  {
    var k :| k in v.records && k !in leaving && home(k) == home(key) && home(key) in mid && mid[home(key)] == v.records[k];
    ServesUnique(before, home, k, v.records[k], v.records[k]);
  }

  /** A key the write neither removes nor installs, and did not re-home, keeps exactly its entries. */
  lemma {:induction false} UntouchedEntries(path: string, key: string, files: Files, mid: Files, before: Files, v: View,
          home: string -> string, leaving: set<string>, rehomed: set<string>, removals: seq<string>,
          installs: seq<Finding>, keep: set<string>)
    requires Written(files, mid, before, v, home, leaving, rehomed, removals, installs, keep)
    requires LastInstall(installs, key).None? && key !in removals && home(key) !in rehomed
    ensures Holds(files, path, key) <==> Holds(before, path, key)
    ensures Holds(files, path, key) ==> files[path] == before[path]
  {
    if Holds(files, path, key) {
      HolderAfter(path, key, files, mid, before, v, home, leaving, rehomed, removals, installs, keep);
    }
    if Holds(before, path, key) {
      LastIsInstalled(installs, home, key);
      assert Parked(before, home, leaving, path) || path == home(key);
      assert path !in keep;
      assert WrittenAt(path, files, mid, before, home, removals, installs, keep);
    }
  }

  lemma {:induction false} KeptServes(key: string, files: Files, mid: Files, before: Files, v: View,
          home: string -> string, leaving: set<string>, rehomed: set<string>, removals: seq<string>,
          installs: seq<Finding>, keep: set<string>, f: Finding)
    requires Written(files, mid, before, v, home, leaving, rehomed, removals, installs, keep)
    requires LastInstall(installs, key).None? && key !in removals
    ensures Serves(files, home, key, f) <==> Serves(before, home, key, f)
  {
    LastIsInstalled(installs, home, key);
    if home(key) in rehomed {
      RehomedOwn(key, mid, before, v, home, leaving);
      assert WrittenAt(home(key), files, mid, before, home, removals, installs, keep);
      if Serves(before, home, key, f) {
        ServesUnique(before, home, key, f, v.records[key]);
      }
    } else {
      forall path ensures Holds(files, path, key) <==> Holds(before, path, key)
                  ensures Holds(files, path, key) ==> path in before && files[path] == before[path] {
        UntouchedEntries(path, key, files, mid, before, v, home, leaving, rehomed, removals, installs, keep);
      }
      SameServing(files, before, home, key, f);
      SameServing(before, files, home, key, f);
    }
  }

  lemma {:induction false} SameServing(files: Files, before: Files, home: string -> string, key: string, f: Finding)
    requires forall path :: Holds(files, path, key) <==> Holds(before, path, key)
    requires forall path :: Holds(files, path, key) ==> path in before && files[path] == before[path]
    ensures Serves(files, home, key, f) ==> Serves(before, home, key, f)
  {
  }

  lemma {:induction false} WriteIsExact(key: string, files: Files, mid: Files, before: Files, v: View,
          home: string -> string, leaving: set<string>, rehomed: set<string>, removals: seq<string>,
          installs: seq<Finding>, keep: set<string>)
    requires Written(files, mid, before, v, home, leaving, rehomed, removals, installs, keep)
    ensures Exact(key, files, before, home, removals, installs)
  {
    LastIsInstalled(installs, home, key);
    assert WrittenAt(home(key), files, mid, before, home, removals, installs, keep);
    if LastInstall(installs, key).Some? || key in removals {
      forall path | Holds(files, path, key) ensures LastInstall(installs, key).Some? && path == home(key) {
        HolderAfter(path, key, files, mid, before, v, home, leaving, rehomed, removals, installs, keep);
      }
    } else {
      forall f ensures Serves(files, home, key, f) <==> Serves(before, home, key, f) {
        KeptServes(key, files, mid, before, v, home, leaving, rehomed, removals, installs, keep, f);
      }
    }
  }

  function ReadNames(files: Files, home: string -> string, names: seq<string>): View
    requires forall path :: path in names ==> path in files
  {
    if names == [] then View(map[], map[]) else
      var name := names[|names| - 1];
      assert forall path :: path in names[..|names| - 1] ==> path in names;
      var v := ReadNames(files, home, names[..|names| - 1]);
      var key := KeyOf(files[name]);
      View(v.served[key := (if key in v.served then v.served[key] else []) + [name]],
           if key in v.records && name != home(key) then v.records else v.records[key := files[name]])
  }

  /** A name of the key is among those read. */
  ghost predicate Found(files: Files, names: seq<string>, key: string) {
    exists path :: path in names && Holds(files, path, key)
  }

  lemma {:induction false} FoundNext(files: Files, names: seq<string>, key: string)
    requires names != []
    ensures Found(files, names, key) <==> Found(files, names[..|names| - 1], key) || Holds(files, names[|names| - 1], key)
  {
    assert names == names[..|names| - 1] + [names[|names| - 1]];
    assert forall path :: path in names <==> path in names[..|names| - 1] || path == names[|names| - 1];
  }

  lemma {:induction false} ReadServed(files: Files, home: string -> string, names: seq<string>, key: string)
    requires forall path :: path in names ==> path in files
    ensures var v := ReadNames(files, home, names);
            && (key in v.served <==> Found(files, names, key)) && (key in v.records <==> key in v.served)
            && (key in v.served ==> forall path :: path in v.served[key] <==> path in names && Holds(files, path, key))
  {
    if names != [] {
      assert names == names[..|names| - 1] + [names[|names| - 1]];
      ReadServed(files, home, names[..|names| - 1], key);
      FoundNext(files, names, key);
    }
  }

  lemma {:induction false} ReadChosen(files: Files, home: string -> string, names: seq<string>, key: string)
    requires forall path :: path in names ==> path in files
    ensures key in ReadNames(files, home, names).records ==> Chosen(files, home, names, key, ReadNames(files, home, names).records[key])
  {
    if names != [] {
      var n := |names| - 1;
      assert forall path :: path in names[..n] ==> path in names;
      ReadChosen(files, home, names[..n], key);
      ReadServed(files, home, names[..n], key);
      if key in ReadNames(files, home, names).records {
        ChosenNext(files, home, names, key, ReadNames(files, home, names[..n]), ReadNames(files, home, names));
      }
    }
  }

  lemma {:induction false} ReadIsRead(files: Files, home: string -> string, names: seq<string>)
    requires StrictlyAscending(names, Itself) && forall path :: path in names <==> path in files
    ensures ReadOf(ReadNames(files, home, names), files, home)
  {
    var v := ReadNames(files, home, names);
    forall key ensures (key in v.served <==> Found(files, names, key)) && (key in v.records <==> key in v.served)
      && (key in v.served ==> forall path :: path in v.served[key] <==> path in names && Holds(files, path, key)) {
      ReadServed(files, home, names, key);
    }
    forall key | key in v.records ensures Serves(files, home, key, v.records[key]) {
      ReadChosen(files, home, names, key);
      ChosenServes(files, home, names, key, v.records[key]);
    }
    assert v.records.Keys == v.served.Keys;
  }

  /** The record chosen so far among the names read. */
  ghost predicate Chosen(files: Files, home: string -> string, names: seq<string>, key: string, f: Finding) {
    if home(key) in names && Holds(files, home(key), key) then f == files[home(key)]
    else FirstNamed(files, names, key, f)
  }

  ghost predicate FirstNamed(files: Files, names: seq<string>, key: string, f: Finding) {
    exists i :: 0 <= i < |names| && Holds(files, names[i], key) && f == files[names[i]] && forall j :: 0 <= j < i ==> !Holds(files, names[j], key)
  }

  lemma {:induction false} FirstNamedNext(files: Files, names: seq<string>, key: string, f: Finding)
    requires names != []
    ensures FirstNamed(files, names[..|names| - 1], key, f) ==> FirstNamed(files, names, key, f)
    ensures !Found(files, names[..|names| - 1], key) && Holds(files, names[|names| - 1], key) && f == files[names[|names| - 1]] ==> FirstNamed(files, names, key, f)
  {
    var n := |names| - 1;
    var init := names[..n];
    if FirstNamed(files, init, key, f) {
      var i :| 0 <= i < n && Holds(files, init[i], key) && f == files[init[i]] && forall j :: 0 <= j < i ==> !Holds(files, init[j], key);
      assert names[i] == init[i];
      assert forall j :: 0 <= j < i ==> names[j] == init[j];
    }
    assert forall j :: 0 <= j < n ==> init[j] in init && names[j] == init[j];
  }

  lemma {:induction false} ChosenNext(files: Files, home: string -> string, names: seq<string>, k: string, was: View,
          now: View)
    requires names != [] && names[|names| - 1] in files && k in now.records
    requires k in was.records <==> Found(files, names[..|names| - 1], k)
    requires k in was.records ==> Chosen(files, home, names[..|names| - 1], k, was.records[k])
    requires var name := names[|names| - 1]; var key := KeyOf(files[name]);
             now.records == if key in was.records && name != home(key) then was.records else was.records[key := files[name]]
    ensures Chosen(files, home, names, k, now.records[k])
  {
    assert names == names[..|names| - 1] + [names[|names| - 1]];
    FirstNamedNext(files, names, k, now.records[k]);
  }

  lemma {:induction false} ChosenServes(files: Files, home: string -> string, names: seq<string>, key: string,
          f: Finding)
    requires StrictlyAscending(names, Itself) && (forall path :: path in names <==> path in files)
    requires Chosen(files, home, names, key, f)
    ensures Serves(files, home, key, f)
  {
    if !Holds(files, home(key), key) {
      var i :| 0 <= i < |names| && Holds(files, names[i], key) && f == files[names[i]] && forall j :: 0 <= j < i ==> !Holds(files, names[j], key);
      forall q | Holds(files, q, key) ensures AtMost(names[i], q) {
        FirstIsLeast(files, names, key, i, q);
      }
    }
  }

  lemma {:induction false} FirstIsLeast(files: Files, names: seq<string>, key: string, i: nat, q: string)
    requires i < |names| && StrictlyAscending(names, Itself) && q in names && Holds(files, q, key)
    requires forall j :: 0 <= j < i ==> !Holds(files, names[j], key)
    ensures AtMost(names[i], q)
  {
    var j :| 0 <= j < |names| && names[j] == q;
    assert i < j ==> Less(Itself(names[i]), Itself(names[j]));
  }
}
