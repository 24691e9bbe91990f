/** The operations of the backup manager as functions on catalogues, and what holds over
    every run of them. */
module BackupRuns {
  import opened Wrappers
  import opened BackupCatalogue

  // ---------------------------------------------------------------- reload of one location

  /** What reloading one location makes of an entry, given the files found there; `None`
      if the backup is gone. */
  ghost function ReloadedEntry(e: Entry, found: Catalogue, location: Location): Option<Entry> {
    var slug := SlugOf(e.data);
    if slug in found then
      match Consolidated(e, found[slug])
      case Ok(merged) => Some(merged)
      case Err(_) => Some(e)
    else if location in e.locations then
      if |e.locations| > 1 then Some(e.(locations := e.locations - {location})) else None
    else Some(e)
  }

  ghost function ReloadLocation(cat: Catalogue, order: seq<File>, location: Location): Catalogue {
    var found := LoadAll(order);
    map slug | slug in cat && ReloadedEntry(cat[slug], found, location).Some? ::
      ReloadedEntry(cat[slug], found, location).value
  }

  /** Every entry is keyed by its own slug and has a location. */
  ghost predicate Good(cat: Catalogue) {
    forall slug :: slug in cat ==> SlugOf(cat[slug].data) == slug && cat[slug].locations != map[]
  }

  ghost predicate AllAt(files: seq<File>, location: Location) {
    forall f :: f in files ==> f.location == location
  }

  lemma LoadAllIsGood(order: seq<File>)
    ensures Good(LoadAll(order))
  {
    forall slug | slug in LoadAll(order)
      ensures SlugOf(LoadAll(order)[slug].data) == slug && LoadAll(order)[slug].locations != map[]
    {
      LoadedExactly(order, slug);
      var e := LoadAll(order)[slug];
      var i :| 0 <= i < |order| && IsBackup(order[i], slug) && order[i].content.data == e.data;
      assert Contributes(order[i], e.data, order[i].location);
      var k := ContributedHasLast(order, e.data, order[i].location, i);
      assert HasLastContributed(e, order, order[i].location);
    }
  }

  lemma OnlyItsLocationLoaded(order: seq<File>, location: Location, slug: string)
    requires AllAt(order, location) && slug in LoadAll(order)
    ensures forall l :: l in LoadAll(order)[slug].locations ==> l == location
  {
    LoadedExactly(order, slug);
    var e := LoadAll(order)[slug];
    forall l | l in e.locations
      ensures l == location
    {
      assert HasLastContributed(e, order, l);
      var i: nat :| LastContributor(order, e.data, l, i);
    }
  }

  /** Reloading one location adds no slug and changes nothing about other locations. */
  lemma LocationReloadIsLocal(cat: Catalogue, order: seq<File>, location: Location)
    requires Good(cat) && AllAt(order, location)
    ensures ReloadLocation(cat, order, location).Keys <= cat.Keys
    ensures forall slug :: slug in ReloadLocation(cat, order, location) ==>
              && ReloadLocation(cat, order, location)[slug].data == cat[slug].data
              && ReloadLocation(cat, order, location)[slug].locations - {location} == cat[slug].locations - {location}
    ensures forall slug :: slug in cat && slug !in ReloadLocation(cat, order, location) ==>
              cat[slug].locations.Keys == {location} && !SomeBackup(order, slug)
  {
    forall slug | slug in cat
      ensures ReloadedLocally(cat[slug], ReloadedEntry(cat[slug], LoadAll(order), location), order, location)
    {
      ReloadedEntryIsLocal(cat[slug], order, location);
    }
  }

  /** The entry keeps its metadata and all other locations; if it goes, the reloaded
      location was its only one and no file of it was found. */
  ghost predicate ReloadedLocally(e: Entry, r: Option<Entry>, order: seq<File>, location: Location) {
    if r.Some? then r.value.data == e.data && r.value.locations - {location} == e.locations - {location}
    else e.locations.Keys == {location} && !SomeBackup(order, SlugOf(e.data))
  }

  lemma ReloadedEntryIsLocal(e: Entry, order: seq<File>, location: Location)
    requires AllAt(order, location)
    ensures ReloadedLocally(e, ReloadedEntry(e, LoadAll(order), location), order, location)
  {
    hide LoadAll, Describes, Agree, SomeBackup;
    var slug := SlugOf(e.data);
    LoadedExactly(order, slug);
    if slug in LoadAll(order) {
      OnlyItsLocationLoaded(order, location, slug);
      MergedBut(e.locations, LoadAll(order)[slug].locations, location);
    } else if location in e.locations && |e.locations| <= 1 {
      SoleKey(e.locations, location);
    }
    assert (e.locations - {location}) - {location} == e.locations - {location};
  }

  lemma MergedBut<K, V>(a: map<K, V>, b: map<K, V>, k: K)
    requires forall x :: x in b ==> x == k
    ensures (a + b) - {k} == a - {k}
  {
  }

  lemma MergedSame<K, V>(a: map<K, V>, b: map<K, V>)
    requires forall x :: x in b ==> x in a && a[x] == b[x]
    ensures a + b == a
  {
  }

  lemma SoleKey<K, V>(m: map<K, V>, k: K)
    requires k in m && |m| <= 1
    ensures m.Keys == {k}
  {
    var rest := m.Keys - {k};
    assert |m.Keys| == |rest| + 1;
  }

  /** With at most one file per slug and location, reloading a location right after a full
      reload of the same disk changes nothing, even if some files were rejected as
      conflicting. */
  lemma LocationReloadAfterFullReload(order: seq<File>, here: seq<File>, location: Location)
    requires Unambiguous(order)
    requires forall f :: f in here <==> f in order && f.location == location
    ensures ReloadLocation(LoadAll(order), here, location) == LoadAll(order)
  {
    var cat := LoadAll(order);
    forall slug | slug in cat
      ensures ReloadedEntry(cat[slug], LoadAll(here), location) == Some(cat[slug])
    {
      LoadedExactly(order, slug);
      LoadedExactly(here, slug);
      if slug in LoadAll(here) {
        FoundAgainIsKnown(order, here, location, slug);
      } else {
        NotFoundIsUnknown(order, here, location, slug);
      }
    }
  }

  lemma NotFoundIsUnknown(order: seq<File>, here: seq<File>, location: Location, slug: string)
    requires slug in LoadAll(order) && !SomeBackup(here, slug)
    requires forall f :: f in here <==> f in order && f.location == location
    ensures location !in LoadAll(order)[slug].locations
  {
    LoadedExactly(order, slug);
    var e := LoadAll(order)[slug];
    assert HasLastContributed(e, order, location);
    if location in e.locations {
      var i: nat :| LastContributor(order, e.data, location, i);
      var f := order[i];
      assert f in here;
      var k :| 0 <= k < |here| && here[k] == f;
      AgreeingHaveSameSlug(e.data, f.content.data);
      assert false;
    }
  }

  lemma FoundAgainIsKnown(order: seq<File>, here: seq<File>, location: Location, slug: string)
    requires Unambiguous(order) && slug in LoadAll(order) && slug in LoadAll(here)
    requires forall f :: f in here <==> f in order && f.location == location
    ensures ReloadedEntry(LoadAll(order)[slug], LoadAll(here), location) == Some(LoadAll(order)[slug])
  {
    hide LoadAll, Describes, Unambiguous;
    var e := LoadAll(order)[slug];
    LoadAllIsGood(order);
    var f := SoleFileLoaded(order, here, location, slug);
    if Agree(e.data, f.content.data) {
      LoadedExactly(order, slug);
      KnownFrom(order, e, slug, location, f);
      MergedSame(e.locations, map[location := LocationOf(f)]);
    }
  }

  /** What one location yields for a backup that has a single file there. */
  lemma SoleFileLoaded(order: seq<File>, here: seq<File>, location: Location, slug: string) returns (f: File)
    requires Unambiguous(order) && slug in LoadAll(here)
    requires forall f :: f in here <==> f in order && f.location == location
    ensures f in order && f.location == location && IsBackup(f, slug)
    ensures LoadAll(here)[slug] == Entry(f.content.data, map[location := LocationOf(f)])
  {
    LoadedExactly(here, slug);
    var found := LoadAll(here)[slug];
    OnlyItsLocationLoaded(here, location, slug);
    var i :| 0 <= i < |here| && IsBackup(here[i], slug) && here[i].content.data == found.data;
    f := here[i];
    assert f in here && Contributes(here[i], found.data, location);
    assert forall g :: g in here && IsBackup(g, slug) ==> SameBackup(f, g);
    var last := ContributedHasLast(here, found.data, location, i);
    assert HasLastContributed(found, here, location);
    TheFileOf(here, found, slug, location, f);
  }

  /** If the only file of a backup in a location agrees with the entry, it is recorded. */
  lemma KnownFrom(order: seq<File>, e: Entry, slug: string, location: Location, f: File)
    requires Unambiguous(order) && Describes(e, slug, order)
    requires f in order && f.location == location && IsBackup(f, slug) && Agree(e.data, f.content.data)
    ensures location in e.locations && e.locations[location] == LocationOf(f)
  {
    var k :| 0 <= k < |order| && order[k] == f;
    assert Contributes(order[k], e.data, location) && HasLastContributed(e, order, location);
    var last := ContributedHasLast(order, e.data, location, k);
    assert forall g :: g in order && g.location == location && IsBackup(g, slug) ==> SameBackup(f, g);
    TheFileOf(order, e, slug, location, f);
  }

  /** The file behind a location is the only one of that backup there. */
  lemma TheFileOf(order: seq<File>, e: Entry, slug: string, location: Location, f: File)
    requires SlugOf(e.data) == slug && HasLastContributed(e, order, location) && location in e.locations
    requires forall g :: g in order && g.location == location && IsBackup(g, slug) ==> g == f
    ensures f.content.Readable? && e.locations[location] == LocationOf(f)
  {
    var k: nat :| LastContributor(order, e.data, location, k) && e.locations[location] == LocationOf(order[k]);
    AgreeingHaveSameSlug(e.data, order[k].content.data);
    assert order[k] in order;
  }

  /** The first readable file of a backup. */
  ghost predicate IsFirstFile(order: seq<File>, slug: string, i: nat) {
    i < |order| && IsBackup(order[i], slug) && forall j :: 0 <= j < i ==> !IsBackup(order[j], slug)
  }

  /** The last file with this metadata. */
  ghost predicate IsLastFile(order: seq<File>, data: Metadata, i: nat) {
    && i < |order| && order[i].content.Readable? && SameMetadata(data, order[i].content.data)
    && forall j :: i < j < |order| && order[j].content.Readable? ==> !SameMetadata(data, order[j].content.data)
  }

  lemma LastIsFound(order: seq<File>, location: Location, e: Entry, slug: string, i: nat, k: nat)
    requires AllAt(order, location) && Describes(e, slug, order) && IsFirstFile(order, slug, i)
    requires IsLastFile(order, order[i].content.data, k)
    ensures e == Entry(order[i].content.data, map[location := LocationOf(order[k])])
  {
    var i' :| 0 <= i' < |order| && IsBackup(order[i'], slug) && order[i'].content.data == e.data
              && forall j :: 0 <= j < i' ==> !IsBackup(order[j], slug);
    assert i' == i;
    forall j | 0 <= j < |order| && order[j].content.Readable?
      ensures Agree(e.data, order[j].content.data) <==> SameMetadata(e.data, order[j].content.data)
    {
      AgreeIsSameMetadata(e.data, order[j].content.data);
    }
    assert order[k] in order;
    forall l
      ensures l in e.locations <==> l == location
      ensures l == location ==> e.locations[l] == LocationOf(order[k])
    {
      assert HasLastContributed(e, order, l);
      assert LastContributor(order, e.data, location, k);
      if l in e.locations {
        var m: nat :| LastContributor(order, e.data, l, m) && e.locations[l] == LocationOf(order[m]);
        assert order[m] in order;
        assert m == k;
      }
    }
    assert e.locations == map[location := LocationOf(order[k])];
  }

  /** A reload of one location records there what the last agreeing file says, if the first file
      of the backup agrees with the cached metadata. */
  lemma LocationReloadTakesUpWhatItFinds(cat: Catalogue, order: seq<File>, location: Location, slug: string, i: nat, k: nat)
    requires Good(cat) && AllAt(order, location) && slug in cat && IsFirstFile(order, slug, i)
    requires SameMetadata(cat[slug].data, order[i].content.data) && IsLastFile(order, cat[slug].data, k)
    ensures var after := ReloadLocation(cat, order, location);
            && slug in after && after[slug].data == cat[slug].data
            && location in after[slug].locations && IsRecordOf(after[slug].locations[location], order[k])
            && after[slug].locations - {location} == cat[slug].locations - {location}
  {
    LoadedExactly(order, slug);
    AgreeIsSameMetadata(cat[slug].data, order[i].content.data);
    forall j | 0 <= j < |order| && order[j].content.Readable?
      ensures SameMetadata(order[i].content.data, order[j].content.data) <==> SameMetadata(cat[slug].data, order[j].content.data)
    {
    }
    LastIsFound(order, location, LoadAll(order)[slug], slug, i, k);
    LocationReloadIsLocal(cat, order, location);
  }

  /** If that first file does not agree, the entry stays as it was. */
  lemma LocationReloadRejectsConflicts(cat: Catalogue, order: seq<File>, location: Location, slug: string, i: nat)
    requires Good(cat) && AllAt(order, location) && slug in cat && IsFirstFile(order, slug, i)
    requires !SameMetadata(cat[slug].data, order[i].content.data)
    ensures slug in ReloadLocation(cat, order, location) && ReloadLocation(cat, order, location)[slug] == cat[slug]
  {
    LoadedExactly(order, slug);
    AgreeIsSameMetadata(cat[slug].data, order[i].content.data);
    var e := LoadAll(order)[slug];
    var i' :| 0 <= i' < |order| && IsBackup(order[i'], slug) && order[i'].content.data == e.data
              && forall j :: 0 <= j < i' ==> !IsBackup(order[j], slug);
    assert i' == i;
  }

  /** If no readable file was found, the location is gone, and the slug exactly if it was the
      only one. */
  lemma LocationReloadForgetsWhatIsGone(cat: Catalogue, order: seq<File>, location: Location, slug: string)
    requires Good(cat) && AllAt(order, location) && slug in cat
    requires forall i :: 0 <= i < |order| ==> !IsBackup(order[i], slug)
    ensures var after := ReloadLocation(cat, order, location);
            && (slug !in after <==> cat[slug].locations.Keys == {location})
            && (slug in after ==> after[slug] == cat[slug].(locations := cat[slug].locations - {location}))
  {
    LoadedExactly(order, slug);
    var e := cat[slug];
    assert |e.locations.Keys| == |e.locations|;
    if location in e.locations {
      assert e.locations.Keys == {location} <==> |e.locations| <= 1 by {
        if |e.locations| <= 1 {
          SoleKey(e.locations, location);
        }
      }
    } else {
      assert e.locations - {location} == e.locations;
    }
  }

  // ---------------------------------------------------------------- removal

  /** How deleting one file went. */
  datatype Unlink = Deleted | Missing | Failed

  /** Deletes the targets one by one and stops at the first that cannot be deleted. */
  ghost function RemoveTargets(locations: map<Location, BackupLocation>, targets: seq<Location>, unlinks: seq<Unlink>)
    : (r: (map<Location, BackupLocation>, Option<Error>))
    requires |targets| <= |unlinks|
  {
    if targets == [] then (locations, None)
    else if targets[0] !in locations then (locations, Some(UnknownLocation))
    else match unlinks[0]
      case Deleted => RemoveTargets(locations - {targets[0]}, targets[1..], unlinks[1..])
      case Missing => (locations, Some(FileMissing))
      case Failed => (locations, Some(CannotDelete))
  }

  ghost function Known(locations: map<Location, BackupLocation>, requested: seq<Location>): seq<Location> {
    if requested == [] then []
    else (if requested[0] in locations then [requested[0]] else []) + Known(locations, requested[1..])
  }

  /** The locations a removal goes through: the known ones among those requested, or all
      of them, in the order of the dict, if none were requested. */
  ghost function Targets(locations: map<Location, BackupLocation>, requested: seq<Location>, keys: seq<Location>)
    : seq<Location>
  {
    if requested != [] then Known(locations, requested) else keys
  }

  ghost function Removed(cat: Catalogue, slug: string, targets: seq<Location>, unlinks: seq<Unlink>)
    : (Catalogue, Option<Error>)
    requires slug in cat && |targets| <= |unlinks|
  {
    var (left, error) := RemoveTargets(cat[slug].locations, targets, unlinks);
    if error.None? && left == map[] then (cat - {slug}, None)
    else (cat[slug := cat[slug].(locations := left)], error)
  }

  /** Removing a backup object that is not the cached one: the catalogue shows nothing of its
      locations, and loses whatever it has under that slug once the object has none left. */
  ghost function RemovedDetached(cat: Catalogue, e: Entry, targets: seq<Location>, unlinks: seq<Unlink>)
    : (Catalogue, Option<Error>)
    requires |targets| <= |unlinks|
  {
    var (left, error) := RemoveTargets(e.locations, targets, unlinks);
    if error.Some? || left != map[] then (cat, error)
    else if SlugOf(e.data) in cat then (cat - {SlugOf(e.data)}, None)
    else (cat, Some(UnknownBackup))
  }

  ghost predicate Distinct(ls: seq<Location>) {
    forall i, j :: 0 <= i < j < |ls| ==> ls[i] != ls[j]
  }

  ghost predicate AllKnown(locations: map<Location, BackupLocation>, targets: seq<Location>) {
    forall t :: t in targets ==> t in locations
  }

  lemma {:induction false} KnownAreKnown(locations: map<Location, BackupLocation>, requested: seq<Location>)
    ensures AllKnown(locations, Known(locations, requested))
    ensures forall l :: l in Known(locations, requested) <==> l in requested && l in locations
    ensures Distinct(requested) ==> Distinct(Known(locations, requested))
  {
    if requested != [] {
      KnownAreKnown(locations, requested[1..]);
      assert requested == [requested[0]] + requested[1..];
    }
  }

  lemma RestKnown(locations: map<Location, BackupLocation>, targets: seq<Location>)
    requires targets != [] && AllKnown(locations, targets) && Distinct(targets)
    ensures AllKnown(locations - {targets[0]}, targets[1..]) && Distinct(targets[1..])
  {
    forall t | t in targets[1..]
      ensures t in locations - {targets[0]}
    {
      var i :| 0 <= i < |targets[1..]| && targets[1..][i] == t;
      assert targets[i + 1] == t;
    }
  }

  /** How many files are deleted before the first that cannot be. */
  ghost function DeletedFirst(unlinks: seq<Unlink>): nat {
    if unlinks == [] || unlinks[0] != Deleted then 0 else 1 + DeletedFirst(unlinks[1..])
  }

  ghost function Without(locations: map<Location, BackupLocation>, gone: seq<Location>): map<Location, BackupLocation> {
    map l | l in locations && l !in gone :: locations[l]
  }

  /** A removal of distinct known locations stops at the first file that cannot be deleted,
      with its error.  It has dropped exactly the locations before that one, and keeps that
      one and all others. */
  lemma {:induction false} RemovalStopsAtTheFirstFailure(
    locations: map<Location, BackupLocation>, targets: seq<Location>, unlinks: seq<Unlink>)
    requires |targets| <= |unlinks| && AllKnown(locations, targets) && Distinct(targets)
    ensures var k := DeletedFirst(unlinks[..|targets|]);
            && k <= |targets|
            && RemoveTargets(locations, targets, unlinks)
               == (Without(locations, targets[..k]),
                   if k == |targets| then None else if unlinks[k].Missing? then Some(FileMissing) else Some(CannotDelete))
            && (k < |targets| ==> targets[k] in Without(locations, targets[..k]))
  {
    var n := |targets|;
    if targets == [] {
      assert Without(locations, []) == locations;
    } else {
      assert targets[0] in targets;
      if unlinks[0].Deleted? {
        RestKnown(locations, targets);
        RemovalStopsAtTheFirstFailure(locations - {targets[0]}, targets[1..], unlinks[1..]);
        var k := DeletedFirst(unlinks[1..][..n - 1]);
        assert unlinks[..n][1..] == unlinks[1..][..n - 1];
        assert targets[..k + 1] == [targets[0]] + targets[1..][..k];
        assert Without(locations - {targets[0]}, targets[1..][..k]) == Without(locations, targets[..k + 1]);
      } else {
        assert Without(locations, targets[..0]) == locations;
      }
    }
  }

  ghost predicate AllDeleted(unlinks: seq<Unlink>) {
    forall u :: u in unlinks ==> u == Deleted
  }

  /** If requests may repeat a location, a removal can end in an error and leave a backup
      without a location in the catalogue.  It does so exactly if its first targets, as many
      as there are locations, are distinct known locations whose files are deleted, and a
      further target follows. */
  lemma {:induction false} RemovalStrandsExactly(
    locations: map<Location, BackupLocation>, targets: seq<Location>, unlinks: seq<Unlink>)
    requires |targets| <= |unlinks|
    ensures RemoveTargets(locations, targets, unlinks) == (map[], Some(UnknownLocation))
            <==> |locations| < |targets| && AllKnown(locations, targets[..|locations|])
                 && Distinct(targets[..|locations|]) && AllDeleted(unlinks[..|locations|])
  {
    var n := |locations|;
    if targets != [] && targets[0] in locations {
      var t := targets[0];
      var left := locations - {t};
      assert left.Keys == locations.Keys - {t} && |left| == n - 1;
      if n < |targets| {
        var head, dels := targets[..n], unlinks[..n];
        assert head == [t] + targets[1..][..n - 1] && dels == [unlinks[0]] + unlinks[1..][..n - 1];
        FirstDeleted(unlinks[0], unlinks[1..][..n - 1]);
        FirstTarget(locations, t, targets[1..][..n - 1]);
      }
      RemovalStrandsExactly(left, targets[1..], unlinks[1..]);
    } else if targets != [] && n > 0 {
      assert n < |targets| ==> targets[0] in targets[..n];
    }
  }

  lemma FirstDeleted(first: Unlink, rest: seq<Unlink>)
    ensures AllDeleted([first] + rest) <==> first.Deleted? && AllDeleted(rest)
  {
    assert first in [first] + rest;
    assert forall u :: u in rest ==> u in [first] + rest;
  }

  lemma FirstTarget(locations: map<Location, BackupLocation>, t: Location, rest: seq<Location>)
    requires t in locations
    ensures AllKnown(locations, [t] + rest) && Distinct([t] + rest) <==> AllKnown(locations - {t}, rest) && Distinct(rest)
  {
    var all := [t] + rest;
    forall i | AllKnown(locations, all) && Distinct(all) && 0 <= i < |rest|
      ensures rest[i] in locations - {t}
    {
      assert all[i + 1] == rest[i] && all[i + 1] in all && all[0] != all[i + 1];
    }
    forall i, j | Distinct(all) && 0 <= i < j < |rest|
      ensures rest[i] != rest[j]
    {
      assert all[i + 1] == rest[i] && all[j + 1] == rest[j];
    }
    assert AllKnown(locations - {t}, rest) ==> t !in rest;
    assert forall x :: x in all <==> x == t || x in rest;
  }

  // ---------------------------------------------------------------- import

  /** What is asked for and what the awaited operations return: the uploaded file, the
      location and path it is moved to, what is read back there, and where it is copied
      (`None` for a copy that fails). */
  datatype Import = Import(
    mounted: bool,
    uploaded: Content,
    moved: bool,
    location: Location,
    path: string,
    readBack: Content,
    additional: seq<(Location, Option<string>)>)

  /** The backup as loaded from its new place. */
  ghost function ImportedEntry(r: Import): Entry
    requires r.uploaded.Readable? && r.readBack.Readable?
  {
    Entry(r.readBack.data,
          map[r.location := BackupLocation(r.path, ProtectedOf(r.uploaded.data) || ProtectedOf(r.readBack.data),
                                           r.readBack.size)])
  }

  ghost function CopiedPaths(additional: seq<(Location, Option<string>)>): map<Location, string> {
    if additional == [] then map[]
    else
      var (l, path) := additional[|additional| - 1];
      var before := CopiedPaths(additional[..|additional| - 1]);
      if path.Some? then before[l := path.value] else before
  }

  /** The copies take protection and size from the backup they were made of. */
  ghost function WithCopies(e: Entry, of: BackupLocation, additional: seq<(Location, Option<string>)>): Entry {
    var paths := CopiedPaths(additional);
    e.(locations := e.locations + map l | l in paths :: BackupLocation(paths[l], of.protected, of.sizeBytes))
  }

  datatype ImportResult = NotImported | Rejected(error: Error) | Imported(backup: Entry)

  /** Is the slug of the imported backup known, with other locations? */
  ghost predicate Consolidates(cat: Catalogue, e: Entry) {
    SlugOf(e.data) in cat && cat[SlugOf(e.data)].locations != e.locations
  }

  /** The catalogue after an import, and the backup handed to the caller.  If the slug was
      known with other locations, the cached backup takes over the new location only; the
      copies are recorded on the backup handed out. */
  ghost function Imports(cat: Catalogue, r: Import): (Catalogue, ImportResult) {
    if !r.mounted then (cat, Rejected(MountDown))
    else if r.uploaded.Unreadable? || !r.moved || r.readBack.Unreadable? then (cat, NotImported)
    else
      var e := ImportedEntry(r);
      var slug := SlugOf(e.data);
      var handed := WithCopies(e, e.locations[r.location], r.additional);
      if Consolidates(cat, e) then
        match Consolidated(cat[slug], e)
        case Ok(merged) => (cat[slug := merged], Imported(handed))
        case Err(error) => (cat, Rejected(error))
      else (cat[slug := handed], Imported(handed))
  }

  /** A copy made during an import is in the catalogue exactly if the import created the
      entry, or the cached backup knew that location anyway. */
  lemma CopiesOfAConsolidatedImportAreNotCached(cat: Catalogue, r: Import, l: Location)
    requires Good(cat) && Imports(cat, r).1.Imported? && l in CopiedPaths(r.additional) && l != r.location
    ensures var slug := SlugOf(Imports(cat, r).1.backup.data);
            && slug in Imports(cat, r).0 && l in Imports(cat, r).1.backup.locations
            && (l in Imports(cat, r).0[slug].locations <==>
                  !Consolidates(cat, ImportedEntry(r)) || l in cat[slug].locations)
  {
  }

  // ---------------------------------------------------------------- removal of an uncached object

  lemma {:induction false} AllAreDeleted(unlinks: seq<Unlink>)
    requires AllDeleted(unlinks)
    ensures DeletedFirst(unlinks) == |unlinks|
  {
    if unlinks != [] {
      assert unlinks[0] in unlinks && forall u :: u in unlinks[1..] ==> u in unlinks;
      AllAreDeleted(unlinks[1..]);
    }
  }

  /** A removal ends without an error exactly if its targets are distinct known locations and
      every file is deleted; then exactly the other locations are left. */
  lemma {:induction false} RemovalSucceedsExactly(
    locations: map<Location, BackupLocation>, targets: seq<Location>, unlinks: seq<Unlink>)
    requires |targets| <= |unlinks|
    ensures var (left, error) := RemoveTargets(locations, targets, unlinks);
            && (error.None? <==>
                  AllKnown(locations, targets) && Distinct(targets) && AllDeleted(unlinks[..|targets|]))
            && (error.None? ==> left == Without(locations, targets))
  {
    if targets == [] {
      assert Without(locations, []) == locations;
    } else if targets[0] in locations {
      var t, rest, dels := targets[0], targets[1..], unlinks[1..][..|targets| - 1];
      assert targets == [t] + rest && unlinks[..|targets|] == [unlinks[0]] + dels;
      RemovalSucceedsExactly(locations - {t}, rest, unlinks[1..]);
      FirstTarget(locations, t, rest);
      FirstDeleted(unlinks[0], dels);
      assert Without(locations - {t}, rest) == Without(locations, targets);
    } else {
      assert targets[0] in targets;
    }
  }

  ghost predicate AllTargeted(e: Entry, targets: seq<Location>) {
    forall l :: l in e.locations ==> l in targets
  }

  ghost predicate Drops(cat: Catalogue, e: Entry, targets: seq<Location>, unlinks: seq<Unlink>) {
    |targets| <= |unlinks| && SlugOf(e.data) in cat && SlugOf(e.data) !in RemovedDetached(cat, e, targets, unlinks).0
  }

  /** Removing an object that is not the cached one drops the cached entry exactly if it goes
      through all locations of that object, each once, and deletes every file; otherwise the
      catalogue is unchanged. */
  lemma CachedEntryIsDroppedExactly(cat: Catalogue, e: Entry, targets: seq<Location>, unlinks: seq<Unlink>)
    requires |targets| <= |unlinks| && SlugOf(e.data) in cat
    ensures Drops(cat, e, targets, unlinks)
            <==> && AllKnown(e.locations, targets) && Distinct(targets) && AllTargeted(e, targets)
                 && AllDeleted(unlinks[..|targets|])
    ensures RemovedDetached(cat, e, targets, unlinks).0
            == if Drops(cat, e, targets, unlinks) then cat - {SlugOf(e.data)} else cat
  {
    RemovalSucceedsExactly(e.locations, targets, unlinks);
    WithoutAll(e, targets);
    var (left, error) := RemoveTargets(e.locations, targets, unlinks);
    assert Drops(cat, e, targets, unlinks) <==> error.None? && left == map[];
    hide RemoveTargets, RemovedDetached, AllTargeted, AllDeleted, AllKnown, Distinct;
  }

  lemma WithoutAll(e: Entry, targets: seq<Location>)
    ensures Without(e.locations, targets) == map[] <==> AllTargeted(e, targets)
  {
    var left := Without(e.locations, targets);
    if left == map[] {
      assert forall l :: l in e.locations ==> l in targets || l in left;
    }
    if AllTargeted(e, targets) {
      assert forall l :: l !in left;
    }
  }

  /** The cached entry knows a location that the removed object does not know, or another file
      there. */
  ghost predicate KnowsMore(cached: Entry, e: Entry) {
    exists l :: l in cached.locations
                && (l !in e.locations || cached.locations[l].path != e.locations[l].path)
  }

  /** Whatever happens to the files, the removal does not drop an entry that knows more. */
  ghost predicate NeverForgets(cat: Catalogue, e: Entry, targets: seq<Location>)
    requires SlugOf(e.data) in cat
  {
    forall unlinks :: Drops(cat, e, targets, unlinks) ==> !KnowsMore(cat[SlugOf(e.data)], e)
  }

  /** Before the call: an entry with a file that the object does not know can be dropped exactly
      if all locations of the object are to be removed. */
  lemma NothingIsForgottenExactly(cat: Catalogue, e: Entry, targets: seq<Location>)
    requires SlugOf(e.data) in cat && AllKnown(e.locations, targets) && Distinct(targets)
    ensures NeverForgets(cat, e, targets)
            <==> !KnowsMore(cat[SlugOf(e.data)], e) || !AllTargeted(e, targets)
  {
    var unlinks := seq(|targets|, i => Deleted);
    CachedEntryIsDroppedExactly(cat, e, targets, unlinks);
    forall others | Drops(cat, e, targets, others)
      ensures AllTargeted(e, targets)
    {
      CachedEntryIsDroppedExactly(cat, e, targets, others);
    }
  }

  /** A removal from all locations loses no location exactly if the cached entry has none
      besides those of the object. */
  lemma NoLocationIsLostExactly(cat: Catalogue, e: Entry, keys: seq<Location>)
    requires SlugOf(e.data) in cat && IsListOf(keys, e.locations)
    ensures (forall unlinks :: Drops(cat, e, keys, unlinks) ==> cat[SlugOf(e.data)].locations.Keys <= e.locations.Keys)
            <==> cat[SlugOf(e.data)].locations.Keys <= e.locations.Keys
  {
    var unlinks := seq(|keys|, i => Deleted);
    CachedEntryIsDroppedExactly(cat, e, keys, unlinks);
    assert Drops(cat, e, keys, unlinks);
  }

  lemma LoadedOneMore(order: seq<File>, f: File, slug: string)
    requires slug in LoadAll(order) && f.content.Readable? && Agree(LoadAll(order)[slug].data, f.content.data)
    ensures slug in LoadAll(order + [f])
    ensures LoadAll(order + [f])[slug]
            == LoadAll(order)[slug].(locations := LoadAll(order)[slug].locations + map[f.location := LocationOf(f)])
  {
    assert (order + [f])[..|order|] == order;
    LoadedExactly(order, slug);
    LoadFileAbsorbs(LoadAll(order), f, slug);
  }

  /** A backup object taken from the cache becomes stale when a full reload finds one more file
      of the backup.  Removing the stale object from all its locations then drops the reloaded
      entry, although the new file stays, until another full reload finds that file again. */
  lemma StaleObjectForgetsTheNewFile(order: seq<File>, f: File, keys: seq<Location>, unlinks: seq<Unlink>, later: seq<File>)
    requires f.content.Readable? && SlugOf(f.content.data) in LoadAll(order)
    requires Agree(LoadAll(order)[SlugOf(f.content.data)].data, f.content.data)
    requires f.location !in LoadAll(order)[SlugOf(f.content.data)].locations
    requires IsListOf(keys, LoadAll(order)[SlugOf(f.content.data)].locations)
    requires |keys| <= |unlinks| && AllDeleted(unlinks) && f in later
    ensures var slug := SlugOf(f.content.data); var stale := LoadAll(order)[slug]; var cat := LoadAll(order + [f]);
            && slug in cat && cat[slug].locations.Keys - stale.locations.Keys == {f.location}
            && RemovedDetached(cat, stale, keys, unlinks) == (cat - {slug}, None)
            && slug in LoadAll(later)
  {
    var slug := SlugOf(f.content.data);
    var stale, cat := LoadAll(order)[slug], LoadAll(order + [f]);
    LoadedExactly(order, slug);
    LoadedOneMore(order, f, slug);
    assert forall u :: u in unlinks[..|keys|] ==> u in unlinks;
    CachedEntryIsDroppedExactly(cat, stale, keys, unlinks);
    var k :| 0 <= k < |later| && later[k] == f;
    assert IsBackup(later[k], slug);
    LoadedExactly(later, slug);
  }

  /** The backup handed out by a consolidated import is not the cached one.  Removing it from
      all its locations drops the cached backup; that loses a location exactly if the cached
      backup had one before that the import did not write to. */
  lemma RemovingAConsolidatedImportForgetsTheRest(cat: Catalogue, r: Import, keys: seq<Location>, unlinks: seq<Unlink>)
    requires Good(cat) && Imports(cat, r).1.Imported? && Consolidates(cat, ImportedEntry(r))
    requires IsListOf(keys, Imports(cat, r).1.backup.locations) && |keys| <= |unlinks|
    ensures var (after, result) := Imports(cat, r); var slug := SlugOf(result.backup.data);
            && (Drops(after, result.backup, keys, unlinks) <==> AllDeleted(unlinks[..|keys|]))
            && slug in after
            && (after[slug].locations.Keys <= result.backup.locations.Keys
                <==> cat[slug].locations.Keys <= result.backup.locations.Keys)
  {
    var (after, result) := Imports(cat, r);
    var slug := SlugOf(result.backup.data);
    assert r.location in result.backup.locations;
    assert after[slug].locations == cat[slug].locations + ImportedEntry(r).locations;
    CachedEntryIsDroppedExactly(after, result.backup, keys, unlinks);
    assert AllTargeted(result.backup, keys);
    assert AllKnown(result.backup.locations, keys);
  }

  // ---------------------------------------------------------------- runs

  datatype Op =
    | FullReload(order: seq<File>)
    | LocationReload(location: Location, found: seq<File>)
    | ImportBackup(r: Import)
    | Remove(slug: string, requested: seq<Location>, keys: seq<Location>, unlinks: seq<Unlink>)
    | RemoveDetached(e: Entry, requested: seq<Location>, keys: seq<Location>, unlinks: seq<Unlink>)

  /** The keys of a dict in some order. */
  ghost predicate IsListOf(keys: seq<Location>, locations: map<Location, BackupLocation>) {
    Distinct(keys) && forall l :: l in keys <==> l in locations
  }

  /** Callers that remove a cached backup name every location once. */
  ghost predicate Enabled(cat: Catalogue, op: Op) {
    match op
    case FullReload(_) => true
    case LocationReload(location, found) => AllAt(found, location)
    case ImportBackup(_) => true
    case Remove(slug, requested, keys, unlinks) =>
      && slug in cat && Distinct(requested) && IsListOf(keys, cat[slug].locations)
      && |Targets(cat[slug].locations, requested, keys)| <= |unlinks|
    case RemoveDetached(e, requested, keys, unlinks) =>
      IsListOf(keys, e.locations) && |Targets(e.locations, requested, keys)| <= |unlinks|
  }

  ghost function Apply(cat: Catalogue, op: Op): Catalogue
    requires Enabled(cat, op)
  {
    match op
    case FullReload(order) => LoadAll(order)
    case LocationReload(location, found) => ReloadLocation(cat, found, location)
    case ImportBackup(r) => Imports(cat, r).0
    case Remove(slug, requested, keys, unlinks) =>
      Removed(cat, slug, Targets(cat[slug].locations, requested, keys), unlinks).0
    case RemoveDetached(e, requested, keys, unlinks) =>
      RemovedDetached(cat, e, Targets(e.locations, requested, keys), unlinks).0
  }

  ghost function Run(ops: seq<Op>): Option<Catalogue> {
    if ops == [] then Some(map[])
    else
      var before := Run(ops[..|ops| - 1]);
      if before.Some? && Enabled(before.value, ops[|ops| - 1]) then Some(Apply(before.value, ops[|ops| - 1])) else None
  }

  lemma ReloadLocationKeepsGood(cat: Catalogue, order: seq<File>, location: Location)
    requires Good(cat) && AllAt(order, location)
    ensures Good(ReloadLocation(cat, order, location))
  {
    var after := ReloadLocation(cat, order, location);
    forall slug | slug in after
      ensures SlugOf(after[slug].data) == slug && after[slug].locations != map[]
    {
      LoadedExactly(order, slug);
      var e := cat[slug];
      if slug !in LoadAll(order) && location in e.locations {
        var left := e.locations - {location};
        assert left.Keys == e.locations.Keys - {location} && |left.Keys| == |e.locations| - 1;
      } else if l :| l in e.locations {
        assert l in after[slug].locations;
      }
    }
  }

  lemma RemoveKeepsGood(cat: Catalogue, slug: string, requested: seq<Location>, keys: seq<Location>, unlinks: seq<Unlink>)
    requires Good(cat) && Enabled(cat, Remove(slug, requested, keys, unlinks))
    ensures Good(Apply(cat, Remove(slug, requested, keys, unlinks)))
  {
    var locations := cat[slug].locations;
    var targets := Targets(locations, requested, keys);
    KnownAreKnown(locations, requested);
    RemovalStopsAtTheFirstFailure(locations, targets, unlinks);
  }

  lemma ImportKeepsGood(cat: Catalogue, r: Import)
    requires Good(cat)
    ensures Good(Imports(cat, r).0)
  {
    if r.uploaded.Readable? && r.readBack.Readable? {
      var e := ImportedEntry(r);
      assert r.location in e.locations;
      assert r.location in WithCopies(e, e.locations[r.location], r.additional).locations;
      assert SlugOf(e.data) in cat ==> r.location in (cat[SlugOf(e.data)].locations + e.locations);
    }
  }

  /** Over every run of reloads, imports and removals, including removals that fail at any
      file, every entry is keyed by its own slug and has at least one location. */
  lemma {:induction false} RunsKeepGood(ops: seq<Op>)
    requires Run(ops).Some?
    ensures Good(Run(ops).value)
  {
    if ops != [] {
      RunsKeepGood(ops[..|ops| - 1]);
      var cat := Run(ops[..|ops| - 1]).value;
      match ops[|ops| - 1] {
        case FullReload(order) => LoadAllIsGood(order);
        case LocationReload(location, found) => ReloadLocationKeepsGood(cat, found, location);
        case ImportBackup(r) => ImportKeepsGood(cat, r);
        case Remove(slug, requested, keys, unlinks) => RemoveKeepsGood(cat, slug, requested, keys, unlinks);
        case RemoveDetached(_, _, _, _) =>
      }
    }
  }

  // ---------------------------------------------------------------- what removals and imports leave

  /** The entry under a slug is as before. */
  ghost predicate SameUnder(cat: Catalogue, after: Catalogue, slug: string) {
    (slug in after <==> slug in cat) && (slug in cat ==> after[slug] == cat[slug])
  }

  lemma RemovalIs(locations: map<Location, BackupLocation>, requested: seq<Location>, keys: seq<Location>,
                  unlinks: seq<Unlink>)
    requires Distinct(requested) && IsListOf(keys, locations) && |Targets(locations, requested, keys)| <= |unlinks|
    ensures var (left, error) := RemoveTargets(locations, Targets(locations, requested, keys), unlinks);
            && (forall l :: l in left ==> l in locations && left[l] == locations[l])
            && (requested != [] ==> forall l :: l in locations && l !in requested ==> l in left)
            && (AllDeleted(unlinks) ==> error.None? && forall l :: l in left <==> l in locations && requested != [] && l !in requested)
  {
    var targets := Targets(locations, requested, keys);
    KnownAreKnown(locations, requested);
    RemovalStopsAtTheFirstFailure(locations, targets, unlinks);
    var k := DeletedFirst(unlinks[..|targets|]);
    assert forall l :: l in targets[..k] ==> l in targets;
    if AllDeleted(unlinks) {
      assert forall u :: u in unlinks[..|targets|] ==> u in unlinks;
      AllAreDeleted(unlinks[..|targets|]);
      assert targets[..|targets|] == targets;
    }
  }

  /** A removal spares every location that was not requested, whatever happens to the files, and
      every other backup. */
  lemma RemovalSparesTheRest(cat: Catalogue, slug: string, requested: seq<Location>, keys: seq<Location>,
                             unlinks: seq<Unlink>)
    requires Good(cat) && Enabled(cat, Remove(slug, requested, keys, unlinks))
    ensures var after := Apply(cat, Remove(slug, requested, keys, unlinks));
            && (forall other :: other != slug ==> SameUnder(cat, after, other))
            && (slug in after ==> after[slug].data == cat[slug].data)
            && (requested != [] ==>
                  forall l :: l in cat[slug].locations && l !in requested ==>
                    slug in after && l in after[slug].locations && after[slug].locations[l] == cat[slug].locations[l])
  {
    RemovalIs(cat[slug].locations, requested, keys, unlinks);
    hide RemoveTargets, Targets;
  }

  /** If every file is deleted, a removal leaves exactly the locations that were not requested,
      and nothing of the backup if those are none or none were named. */
  lemma RemovalRemovesWhatWasRequested(cat: Catalogue, slug: string, requested: seq<Location>, keys: seq<Location>,
                                       unlinks: seq<Unlink>)
    requires Good(cat) && Enabled(cat, Remove(slug, requested, keys, unlinks))
    requires forall u :: u in unlinks ==> u == Deleted
    ensures var after := Apply(cat, Remove(slug, requested, keys, unlinks));
            && (slug !in after <==> requested == [] || forall l :: l in cat[slug].locations ==> l in requested)
            && (slug in after ==> forall l :: l in after[slug].locations <==> l in cat[slug].locations && l !in requested)
  {
    var locations := cat[slug].locations;
    assert AllDeleted(unlinks);
    RemovalIs(locations, requested, keys, unlinks);
    var left := RemoveTargets(locations, Targets(locations, requested, keys), unlinks).0;
    assert left == map[] <==> forall l :: l !in left;
    hide RemoveTargets, Targets;
  }

  /** A removal of an object that is not the cached one changes no other backup, and nothing at
      all if some location of the object was not requested; if every file is deleted and
      everything was requested, the slug is gone. */
  lemma DetachedRemovalIsAllOrNothing(cat: Catalogue, e: Entry, requested: seq<Location>, keys: seq<Location>,
                                      unlinks: seq<Unlink>)
    requires Distinct(requested) && Enabled(cat, RemoveDetached(e, requested, keys, unlinks))
    ensures var after := Apply(cat, RemoveDetached(e, requested, keys, unlinks));
            var spared := requested != [] && exists l :: l in e.locations && l !in requested;
            && (forall other :: other != SlugOf(e.data) ==> SameUnder(cat, after, other))
            && (spared ==> after == cat)
            && (!spared && (forall u :: u in unlinks ==> u == Deleted) ==> SlugOf(e.data) !in after)
            && (SlugOf(e.data) in after ==> after == cat)
  {
    RemovalIs(e.locations, requested, keys, unlinks);
    var left := RemoveTargets(e.locations, Targets(e.locations, requested, keys), unlinks).0;
    assert left == map[] <==> forall l :: l !in left;
    assert AllDeleted(unlinks) <==> forall u :: u in unlinks ==> u == Deleted;
    hide RemoveTargets, Targets;
  }

  /** The last copy to a location that succeeded. */
  ghost predicate IsLastCopy(additional: seq<(Location, Option<string>)>, l: Location, k: nat) {
    && k < |additional| && additional[k].0 == l && additional[k].1.Some?
    && forall j :: k < j < |additional| ==> additional[j].0 != l || additional[j].1.None?
  }

  lemma {:induction false} CopiesAre(additional: seq<(Location, Option<string>)>, l: Location)
    ensures l in CopiedPaths(additional) <==>
              exists k :: 0 <= k < |additional| && additional[k].0 == l && additional[k].1.Some?
    ensures forall k: nat :: IsLastCopy(additional, l, k) ==>
              l in CopiedPaths(additional) && CopiedPaths(additional)[l] == additional[k].1.value
    decreases |additional|
  {
    if additional != [] {
      var n := |additional| - 1;
      CopiesAre(additional[..n], l);
      forall k: nat | IsLastCopy(additional, l, k) && k < n
        ensures IsLastCopy(additional[..n], l, k)
      {
      }
    }
  }

  /** A file was uploaded, moved to its location, and read there again. */
  ghost predicate Arrived(r: Import) {
    r.mounted && r.uploaded.Readable? && r.moved && r.readBack.Readable?
  }

  ghost predicate SaysProtected(d: Metadata) {
    "protected" in d && d["protected"] == Flag(true)
  }

  /** What is recorded for the imported file. */
  ghost predicate IsImportOf(b: BackupLocation, r: Import)
    requires Arrived(r)
  {
    && b.path == r.path && b.sizeBytes == r.readBack.size
    && (b.protected <==> SaysProtected(r.uploaded.data) || SaysProtected(r.readBack.data))
  }

  /** What an import does to the catalogue: nothing unless the file arrived and does not conflict
      with a cached backup; then the file is recorded, a cached backup keeps its metadata and its
      other locations, and no other backup changes. */
  lemma ImportRecordsTheFile(cat: Catalogue, r: Import)
    requires Good(cat)
    ensures var (after, result) := Imports(cat, r);
            && (result.Imported? ==> Arrived(r))
            && (!result.Imported? ==> after == cat)
            && (Arrived(r) ==>
                  var slug := SlugOf(r.readBack.data);
                  && (!result.Imported? ==> slug in cat && !SameMetadata(cat[slug].data, r.readBack.data))
                  && (forall other :: other != slug ==> SameUnder(cat, after, other)))
  {
    if Arrived(r) && SlugOf(r.readBack.data) in cat {
      AgreeIsSameMetadata(cat[SlugOf(r.readBack.data)].data, r.readBack.data);
    }
    hide WithCopies;
  }

  lemma ImportedIsCached(cat: Catalogue, r: Import)
    requires Good(cat) && Imports(cat, r).1.Imported?
    requires forall a :: a in r.additional ==> a.0 != r.location
    ensures var (after, result) := Imports(cat, r); var slug := SlugOf(result.backup.data);
            && Arrived(r) && slug == SlugOf(r.readBack.data) && result.backup.data == r.readBack.data
            && slug in after && r.location in after[slug].locations && IsImportOf(after[slug].locations[r.location], r)
            && (slug in cat ==> SameMetadata(cat[slug].data, after[slug].data) || cat[slug].locations.Keys == {r.location})
            && (slug in cat ==> forall l :: l in cat[slug].locations && l != r.location ==>
                  l in after[slug].locations && after[slug].locations[l] == cat[slug].locations[l])
            && (slug !in cat ==> after[slug] == result.backup)
  {
    CopiesAre(r.additional, r.location);
    var e := ImportedEntry(r);
    var slug := SlugOf(e.data);
    assert r.location !in CopiedPaths(r.additional) by {
      forall k | 0 <= k < |r.additional|
        ensures r.additional[k].0 != r.location
      {
        assert r.additional[k] in r.additional;
      }
    }
    if slug in cat && Consolidates(cat, e) {
      AgreeIsSameMetadata(cat[slug].data, e.data);
    }
    assert e.locations.Keys == {r.location};
  }

  /** The copies of an import are recorded on the backup handed out with their own paths, and the
      protection and size of the imported file. */
  lemma CopiesAreRecorded(cat: Catalogue, r: Import, l: Location, k: nat)
    requires Good(cat) && Imports(cat, r).1.Imported? && IsLastCopy(r.additional, l, k)
    ensures var handed := Imports(cat, r).1.backup;
            Arrived(r) && l in handed.locations && IsImportOf(handed.locations[l], r.(path := r.additional[k].1.value))
  {
    CopiesAre(r.additional, l);
  }

  // ---------------------------------------------------------------- the preferred location

  /** Strings compare by their characters. */
  predicate LexLeq(a: string, b: string) {
    a == "" || (b != "" && (a[0] < b[0] || (a[0] == b[0] && LexLeq(a[1..], b[1..]))))
  }

  function SortKey(l: Location): string {
    if l.Some? then l.value else ""
  }

  predicate Before(a: Location, b: Location) {
    LexLeq(SortKey(a), SortKey(b))
  }

  lemma {:induction false} LexIsTotal(a: string, b: string)
    ensures LexLeq(a, b) || LexLeq(b, a)
    ensures LexLeq(a, b) && LexLeq(b, a) ==> a == b
  {
    if a != "" && b != "" && a[0] == b[0] {
      LexIsTotal(a[1..], b[1..]);
      assert a == [a[0]] + a[1..] && b == [b[0]] + b[1..];
    }
  }

  lemma {:induction false} LexIsTransitive(a: string, b: string, c: string)
    requires LexLeq(a, b) && LexLeq(b, c)
    ensures LexLeq(a, c)
  {
    if a != "" && a[0] == b[0] && b[0] == c[0] {
      LexIsTransitive(a[1..], b[1..], c[1..]);
    }
  }

  ghost predicate IsFirst(first: Location, ls: set<Location>) {
    first in ls && forall l :: l in ls ==> Before(first, l)
  }

  lemma {:induction false} HasFirst(ls: set<Location>)
    requires ls != {}
    ensures exists first :: IsFirst(first, ls)
    decreases |ls|
  {
    var one :| one in ls;
    LexIsTotal(SortKey(one), SortKey(one));
    if ls == {one} {
      assert IsFirst(one, ls);
    } else {
      assert ls - {one} != {};
      HasFirst(ls - {one});
      var other :| IsFirst(other, ls - {one});
      LexIsTotal(SortKey(one), SortKey(other));
      if Before(one, other) {
        forall l | l in ls && l != one
          ensures Before(one, l)
        {
          assert l in ls - {one};
          LexIsTransitive(SortKey(one), SortKey(other), SortKey(l));
        }
        assert IsFirst(one, ls);
      } else {
        assert IsFirst(other, ls);
      }
    }
  }

  ghost function First(ls: set<Location>): (first: Location)
    requires ls != {}
    ensures IsFirst(first, ls)
  {
    HasFirst(ls);
    var first :| IsFirst(first, ls);
    first
  }

  ghost function SortedLocations(ls: set<Location>): seq<Location> {
    if ls == {} then [] else [First(ls)] + SortedLocations(ls - {First(ls)})
  }

  /** The locations of a backup: without the cloud, unless that is the only one. */
  ghost function ListedLocations(e: Entry): seq<Location> {
    SortedLocations(if |e.locations| == 1 then e.locations.Keys else e.locations.Keys - {CLOUD})
  }

  lemma {:induction false} SortedLocationsAreSorted(ls: set<Location>)
    ensures forall l :: l in SortedLocations(ls) <==> l in ls
    ensures Distinct(SortedLocations(ls))
    ensures forall i, j :: 0 <= i < j < |SortedLocations(ls)| ==>
              Before(SortedLocations(ls)[i], SortedLocations(ls)[j])
  {
    if ls != {} {
      var rest := SortedLocations(ls - {First(ls)});
      SortedLocationsAreSorted(ls - {First(ls)});
      assert forall i :: 0 <= i < |rest| ==> rest[i] in rest;
      assert SortedLocations(ls) == [First(ls)] + rest;
    }
  }

  /** A backup with a location always has a preferred one, which is one of its own: the
      local folder if it is there, else the first mount, and the cloud only if there is
      nothing else.  (A mount has a name.) */
  lemma PreferredLocationIsDefined(e: Entry)
    requires e.locations != map[] && Some("") !in e.locations
    ensures ListedLocations(e) != [] && ListedLocations(e)[0] in e.locations
    ensures None in e.locations ==> ListedLocations(e)[0] == None
    ensures ListedLocations(e)[0] == CLOUD ==> e.locations.Keys == {CLOUD}
    ensures forall l :: l in ListedLocations(e) && l != CLOUD ==> Before(ListedLocations(e)[0], l)
    ensures forall l :: l in e.locations && l != CLOUD ==> l in ListedLocations(e)
  {
    var own := e.locations.Keys;
    var ls := if |e.locations| == 1 then own else own - {CLOUD};
    var one :| one in own;
    assert |own| == |e.locations|;
    if own - {CLOUD} == {} {
      OnlyElement(own, CLOUD);
    }
    SortedLocationsAreSorted(ls);
    LexIsTotal(SortKey(First(ls)), SortKey(First(ls)));
    if |e.locations| == 1 {
      SoleKey(e.locations, First(ls));
    }
    if None in e.locations {
      assert None in ls && Before(First(ls), None);
    }
  }

  lemma OnlyElement(ls: set<Location>, l: Location)
    requires ls != {} && ls - {l} == {}
    ensures ls == {l} && |ls| == 1
  {
    assert forall x :: x in ls ==> x == l || x in ls - {l};
    assert ls == {l};
  }
}
