/** The backup objects and their manager.

    Backups are heap objects that the manager shares with its callers; consolidation,
    reload and removal change them in place.  Every method is proved to do what the
    functions on catalogues say. */
module Backups {
  import opened Wrappers
  import opened BackupCatalogue
  import opened BackupRuns

  class Backup {
    var data: Metadata
    var locations: map<Location, BackupLocation>

    ghost function View(): Entry
      reads this
    {
      Entry(data, locations)
    }

    constructor (path: string, slug: string, location: Location, given: Option<Metadata>, size: nat)
      ensures data == if given.Some? then given.value else map["slug" := Text(slug)]
      ensures locations == map[location := BackupLocation(path, given.Some? && ProtectedOf(given.value), size)]
    {
      data := if given.Some? then given.value else map["slug" := Text(slug)];
      locations := map[location := BackupLocation(path, given.Some? && ProtectedOf(given.value), size)];
    }

    /** Reads the metadata of the file in the only location of a new backup. */
    method Load(location: Location, content: Content) returns (loaded: bool)
      requires locations.Keys == {location}
      modifies this
      ensures loaded == content.Readable?
      ensures !loaded ==> View() == old(View())
      ensures loaded ==> data == content.data
      ensures loaded ==> locations == map[location := old(locations)[location].(
                protected := old(locations)[location].protected || ProtectedOf(content.data), sizeBytes := content.size)]
    {
      if content.Unreadable? {
        return false;
      }
      data := content.data;
      if ProtectedOf(data) {
        locations := locations[location := locations[location].(protected := true)];
      }
      locations := locations[location := locations[location].(sizeBytes := content.size)];
      return true;
    }

    method Consolidate(backup: Backup) returns (r: Result<(), Error>)
      modifies this`locations
      ensures match Consolidated(old(View()), old(backup.View()))
              case Ok(merged) => r.Ok? && View() == merged
              case Err(error) => r == Err(error) && View() == old(View())
    {
      if SlugOf(data) != SlugOf(backup.data) {
        return Err(NotSameBackup);
      }
      AgreeFieldByField(data, backup.data);
      ghost var all := data.Keys + backup.data.Keys - IGNORED_COMPARISON_FIELDS;
      var keys := data.Keys + backup.data.Keys - IGNORED_COMPARISON_FIELDS;
      while keys != {}
        invariant keys <= all
        invariant forall k :: k in all - keys ==> SameField(data, backup.data, k)
        decreases |keys|
      {
        var k :| k in keys;
        if k !in data || k !in backup.data || data[k] != backup.data[k] {
          assert k in all && !SameField(data, backup.data, k);
          return Err(Conflicting);
        }
        keys := keys - {k};
      }
      assert all - keys == all;
      locations := locations + backup.locations;
      return Ok(());
    }
  }

  ghost predicate Keyed(backups: map<string, Backup>)
    reads backups.Values
  {
    forall slug :: slug in backups ==> SlugOf(backups[slug].data) == slug
  }

  /** The cached objects have these values. */
  ghost predicate Shows(backups: map<string, Backup>, cat: Catalogue)
    reads backups.Values
  {
    && (forall slug :: slug in backups <==> slug in cat)
    && (forall slug :: slug in backups ==> backups[slug].View() == cat[slug])
  }

  /** The part of a loading task after its file has been read. */
  method LoadBackup(backups: map<string, Backup>, f: File, ghost cat: Catalogue) returns (backups': map<string, Backup>)
    requires Keyed(backups) && Shows(backups, cat)
    modifies backups.Values
    ensures Keyed(backups') && Shows(backups', LoadFile(cat, f))
    ensures fresh(backups'.Values - backups.Values)
  {
    hide Consolidated;
    backups' := backups;
    var backup := new Backup(f.path, "temp", f.location, None, 0);
    var loaded := backup.Load(f.location, f.content);
    assert Keyed(backups) && Shows(backups, cat);
    if loaded {
      ghost var found := Entry(f.content.data, map[f.location := LocationOf(f)]);
      assert backup.View() == found;
      var slug := SlugOf(backup.data);
      if slug in backups {
        var r := ConsolidateCached(backups, backup, cat);
      } else {
        backups' := AddCached(backups, slug, f, backup.data, backup.locations[f.location].sizeBytes, cat);
      }
    }
  }

  /** Caches a newly found backup. */
  method AddCached(backups: map<string, Backup>, slug: string, f: File, data: Metadata, size: nat, ghost cat: Catalogue)
    returns (backups': map<string, Backup>)
    requires Keyed(backups) && Shows(backups, cat) && slug !in backups && SlugOf(data) == slug
    ensures Keyed(backups') && fresh(backups'.Values - backups.Values)
    ensures Shows(backups', cat[slug := Entry(data, map[f.location := BackupLocation(f.path, ProtectedOf(data), size)])])
  {
    var cached := new Backup(f.path, slug, f.location, Some(data), size);
    backups' := backups[slug := cached];
  }

  /** Consolidates a loaded backup into the cached one with its slug, if they agree. */
  method ConsolidateCached(backups: map<string, Backup>, backup: Backup, ghost cat: Catalogue)
    returns (r: Result<(), Error>)
    requires Keyed(backups) && Shows(backups, cat)
    requires SlugOf(backup.data) in backups && backup !in backups.Values
    modifies backups[SlugOf(backup.data)]
    ensures backup.View() == old(backup.View()) && Keyed(backups)
    ensures var slug := SlugOf(backup.data);
            match Consolidated(cat[slug], backup.View())
            case Ok(merged) => r.Ok? && Shows(backups, cat[slug := merged])
            case Err(error) => r == Err(error) && Shows(backups, cat)
  {
    hide Consolidated;
    var slug := SlugOf(backup.data);
    assert backups[slug] in backups.Values && backups[slug].View() == cat[slug];
    r := backups[slug].Consolidate(backup);
    forall other | other in backups && other != slug
      ensures backups[other].View() == cat[other]
    {
      assert old(SlugOf(backups[other].data)) == other;
    }
  }

  method LoadFiles(order: seq<File>) returns (backups: map<string, Backup>)
    ensures Keyed(backups) && Shows(backups, LoadAll(order)) && fresh(backups.Values)
  {
    backups := map[];
    for i := 0 to |order|
      invariant Keyed(backups) && Shows(backups, LoadAll(order[..i])) && fresh(backups.Values)
    {
      assert order[..i + 1][..i] == order[..i];
      backups := LoadBackup(backups, order[i], LoadAll(order[..i]));
    }
    assert order[..|order|] == order;
  }

  method ListOf(locations: map<Location, BackupLocation>) returns (keys: seq<Location>)
    ensures IsListOf(keys, locations)
  {
    keys := [];
    var rest := locations.Keys;
    while rest != {}
      invariant Distinct(keys) && (forall l :: l in keys <==> l in locations && l !in rest) && rest <= locations.Keys
      decreases |rest|
    {
      var l :| l in rest;
      keys, rest := keys + [l], rest - {l};
    }
  }

  /** What a removal makes of the catalogue, once its files have been gone through. */
  lemma RemovedIs(cat: Catalogue, e: Entry, targets: seq<Location>, unlinks: seq<Unlink>,
                  left: map<Location, BackupLocation>, error: Option<Error>)
    requires |targets| <= |unlinks| && (left, error) == RemoveTargets(e.locations, targets, unlinks)
    ensures var slug := SlugOf(e.data);
            slug in cat && cat[slug] == e ==>
              Removed(cat, slug, targets, unlinks)
              == (if error.None? && left == map[] then cat[slug := e.(locations := left)] - {slug}
                  else cat[slug := e.(locations := left)], error)
    ensures RemovedDetached(cat, e, targets, unlinks)
            == if error.Some? || left != map[] then (cat, error)
               else (cat - {SlugOf(e.data)}, if SlugOf(e.data) in cat then None else Some(UnknownBackup))
  {
    assert SlugOf(e.data) !in cat ==> cat - {SlugOf(e.data)} == cat;
    var slug := SlugOf(e.data);
    assert cat[slug := e.(locations := left)] - {slug} == cat - {slug};
  }

  /** How the cache takes in an imported backup. */
  ghost predicate CachedBy(cat: Catalogue, e: Entry, after: Catalogue, error: Option<Error>) {
    var slug := SlugOf(e.data);
    if Consolidates(cat, e) then
      match Consolidated(cat[slug], e)
      case Ok(merged) => error.None? && after == cat[slug := merged]
      case Err(conflict) => error == Some(conflict) && after == cat
    else error.None? && after == cat[slug := e]
  }

  lemma NoImport(cat: Catalogue, r: Import)
    ensures !r.mounted ==> Imports(cat, r) == (cat, Rejected(MountDown))
    ensures r.mounted && !(r.uploaded.Readable? && r.moved && r.readBack.Readable?) ==>
              Imports(cat, r) == (cat, NotImported)
  {
  }

  lemma ImportsIs(cat: Catalogue, r: Import, after: Catalogue, error: Option<Error>)
    requires r.mounted && r.uploaded.Readable? && r.moved && r.readBack.Readable?
    requires CachedBy(cat, ImportedEntry(r), after, error)
    ensures var e := ImportedEntry(r);
            var handed := WithCopies(e, e.locations[r.location], r.additional);
            if error.Some? then after == cat && Imports(cat, r) == (cat, Rejected(error.value))
            else Imports(cat, r) == (if Consolidates(cat, e) then after else after[SlugOf(e.data) := handed], Imported(handed))
  {
    var e := ImportedEntry(r);
    var handed := WithCopies(e, e.locations[r.location], r.additional);
    assert cat[SlugOf(e.data) := e][SlugOf(e.data) := handed] == cat[SlugOf(e.data) := handed];
  }

  class BackupManager {
    ghost var catalogue: Catalogue   // the cached backups as values
    var backups: map<string, Backup>

    ghost predicate Valid()
      reads this, backups.Values
    {
      Keyed(backups) && Shows(backups, catalogue)
    }

    constructor ()
      ensures Valid() && catalogue == map[]
    {
      backups, catalogue := map[], map[];
    }

    /** A full reload; `order` is the order in which the loading tasks finish. */
    method Reload(order: seq<File>)
      modifies this
      ensures Valid() && catalogue == LoadAll(order) && fresh(backups.Values)
    {
      backups := LoadFiles(order);
      catalogue := LoadAll(order);
    }

    /** A reload of one location; `order` lists the files found there. */
    method ReloadLocation(location: Location, order: seq<File>)
      requires Valid()
      modifies this, backups.Values
      ensures Valid() && catalogue == BackupRuns.ReloadLocation(old(catalogue), order, location)
    {
      hide ReloadedEntry, LoadAll, BackupRuns.ReloadLocation;
      var found := LoadFiles(order);
      ghost var cat, known, fromDisk := catalogue, backups, LoadAll(order);
      var rest := backups.Keys;
      while rest != {}
        invariant rest <= known.Keys && fresh(found.Values) && Shows(found, fromDisk)
        invariant Halfway(known, rest, cat, fromDisk, location)
        decreases |rest|
      {
        var slug :| slug in rest;
        ReloadNext(slug, found, location, known, rest, cat, fromDisk);
        rest := rest - {slug};
      }
      HalfwayDone(known, cat, order, location);
      Adopt(BackupRuns.ReloadLocation(cat, order, location));
    }

    /** The entries of `known` in `rest` are as they were; the others have been reloaded. */
    ghost predicate Halfway(known: map<string, Backup>, rest: set<string>, cat: Catalogue, fromDisk: Catalogue,
                            location: Location)
      reads this, known.Values
    {
      && (forall slug :: slug in known <==> slug in cat)
      && (forall slug :: slug in backups ==> slug in known && backups[slug] == known[slug])
      && (forall slug :: slug in known ==> HalfwayAt(slug, known[slug], slug in rest, cat[slug], fromDisk, location))
    }

    ghost predicate HalfwayAt(slug: string, backup: Backup, waiting: bool, e: Entry, fromDisk: Catalogue, location: Location)
      reads this, backup
    {
      && SlugOf(e.data) == slug && backup.data == e.data
      && if waiting then slug in backups && backup.View() == e
         else ReloadedEntry(e, fromDisk, location) == if slug in backups then Some(backup.View()) else None
    }

    lemma HalfwayDone(known: map<string, Backup>, cat: Catalogue, order: seq<File>, location: Location)
      requires Halfway(known, {}, cat, LoadAll(order), location)
      ensures Keyed(backups) && Shows(backups, BackupRuns.ReloadLocation(cat, order, location))
    {
      hide LoadAll, ReloadedEntry;
      var after := BackupRuns.ReloadLocation(cat, order, location);
      forall slug
        ensures slug in backups <==> slug in after
        ensures slug in backups ==> backups[slug].View() == after[slug]
      {
        if slug in known {
          assert slug in cat;
        }
      }
    }

    method ReloadNext(slug: string, found: map<string, Backup>, location: Location, ghost known: map<string, Backup>,
                      ghost rest: set<string>, ghost cat: Catalogue, ghost fromDisk: Catalogue)
      requires slug in rest && slug in known && Shows(found, fromDisk) && found.Values !! known.Values
      requires Halfway(known, rest, cat, fromDisk, location)
      modifies this, known[slug]
      ensures Halfway(known, rest - {slug}, cat, fromDisk, location) && Shows(found, fromDisk)
    {
      hide ReloadedEntry;
      ghost var before := backups;
      assert forall other :: other in found ==> found[other] in found.Values && known[slug] in known.Values;
      forall other | other in known && other != slug
        ensures known[other] != known[slug]
      {
        assert SlugOf(known[other].data) == other && SlugOf(known[slug].data) == slug;
      }
      assert backups[slug] == known[slug];
      ReloadEntry(slug, found, location, cat[slug], fromDisk);
      forall other | other in known
        ensures HalfwayAt(other, known[other], other in rest - {slug}, cat[other], fromDisk, location)
      {
        assert old(HalfwayAt(other, known[other], other in rest, cat[other], fromDisk, location));
        if other != slug {
          assert known[other] != known[slug];
          assert known[other].View() == old(known[other].View()) && (other in backups <==> other in before);
        }
      }
    }

    /** What a reload of one location does to one cached backup. */
    method ReloadEntry(slug: string, found: map<string, Backup>, location: Location, ghost e: Entry, ghost cat: Catalogue)
      requires slug in backups && backups[slug].View() == e && SlugOf(e.data) == slug
      requires Shows(found, cat) && found.Values !! backups.Values
      modifies this, backups[slug]
      ensures backups == old(backups) || backups == old(backups) - {slug}
      ensures old(backups[slug]).data == e.data
      ensures ReloadedEntry(e, cat, location) == if slug in backups then Some(backups[slug].View()) else None
    {
      hide Agree;
      var backup := backups[slug];
      if slug in found {
        assert found[slug] in found.Values && backup in backups.Values;
        assert found[slug].View() == cat[slug];
        var r := backup.Consolidate(found[slug]);
      } else if location in backup.locations {
        if |backup.locations| > 1 {
          backup.locations := backup.locations - {location};
        } else {
          backups := backups - {slug};
        }
      }
    }

    /** The known locations among those requested. */
    method KnownLocations(locations: map<Location, BackupLocation>, requested: seq<Location>)
      returns (targets: seq<Location>)
      ensures targets == Known(locations, requested)
    {
      targets := [];
      for i := 0 to |requested|
        invariant targets + Known(locations, requested[i..]) == Known(locations, requested)
      {
        var location := requested[i];
        assert requested[i..] == [location] + requested[i + 1..];
        if location in locations {
          targets := targets + [location];
        }
      }
    }

    /** Deletes the files one by one; the first that cannot be deleted ends it. */
    method UnlinkTargets(backup: Backup, targets: seq<Location>, unlinks: seq<Unlink>) returns (error: Option<Error>)
      requires |targets| <= |unlinks|
      modifies backup`locations
      ensures (backup.locations, error) == RemoveTargets(old(backup.locations), targets, unlinks)
    {
      ghost var locations := backup.locations;
      for i := 0 to |targets|
        invariant RemoveTargets(locations, targets, unlinks)
               == RemoveTargets(backup.locations, targets[i..], unlinks[i..])
      {
        var location := targets[i];
        assert targets[i..][1..] == targets[i + 1..] && unlinks[i..][1..] == unlinks[i + 1..];
        if location !in backup.locations {
          return Some(UnknownLocation);
        }
        match unlinks[i] {
          case Deleted => backup.locations := backup.locations - {location};
          case Missing => return Some(FileMissing);
          case Failed => return Some(CannotDelete);
        }
      }
      return None;
    }

    ghost predicate IsCached(backup: Backup)
      reads this, backup
    {
      SlugOf(backup.data) in backups && backups[SlugOf(backup.data)] == backup
    }

    /** Removes a backup from the requested locations, or from all; `unlinks` says how
        deleting each file goes.  `keys` is the order of the dict of locations.  The object
        need not be the cached one. */
    method Remove(backup: Backup, requested: seq<Location>, unlinks: seq<Unlink>)
      returns (error: Option<Error>, ghost keys: seq<Location>)
      requires Valid() && |requested| <= |unlinks| && |backup.locations| <= |unlinks|
      modifies this, backup`locations
      ensures Valid() && IsListOf(keys, old(backup.locations))
      ensures |Targets(old(backup.locations), requested, keys)| <= |unlinks|
      ensures var targets := Targets(old(backup.locations), requested, keys);
              (catalogue, error)
              == if old(IsCached(backup)) then Removed(old(catalogue), SlugOf(backup.data), targets, unlinks)
                 else RemovedDetached(old(catalogue), old(backup.View()), targets, unlinks)
      ensures backup.locations
              == RemoveTargets(old(backup.locations), Targets(old(backup.locations), requested, keys), unlinks).0
      ensures Distinct(requested) && requested != [] ==>
                forall l :: l in old(backup.locations) && l !in requested ==>
                  l in backup.locations && backup.locations[l] == old(backup.locations)[l]
    {
      hide RemoveTargets, Known, IsListOf, Removed, RemovedDetached;
      ghost var cat, e, slug, cached := catalogue, backup.View(), SlugOf(backup.data), IsCached(backup);
      var targets := ListOf(backup.locations);
      keys := targets;
      ListIsAsLong(keys, backup.locations);
      KnownIsShorter(backup.locations, requested);
      if requested != [] {
        targets := KnownLocations(backup.locations, requested);
      }
      assert targets == Targets(backup.locations, requested, keys);
      error := UnlinkTargets(backup, targets, unlinks);
      if Distinct(requested) {
        RemovalIs(e.locations, requested, keys, unlinks);
      }
      RefreshIfCached(backup);
      RemovedIs(cat, e, targets, unlinks, backup.locations, error);
      if error.None? && backup.locations == map[] {
        error := Forget(SlugOf(backup.data));
      }
    }

    /** Records in the catalogue that the locations of a backup have changed, if it is cached. */
    ghost method RefreshIfCached(backup: Backup)
      requires Keyed(backups)
      requires forall slug :: slug in backups <==> slug in catalogue
      requires forall slug :: slug in backups && backups[slug] != backup ==> backups[slug].View() == catalogue[slug]
      modifies this`catalogue
      ensures Valid()
      ensures catalogue == if IsCached(backup) then old(catalogue)[SlugOf(backup.data) := backup.View()]
                           else old(catalogue)
    {
      if IsCached(backup) {
        Refresh(backup);
      }
    }

    /** Drops whatever is cached under a slug; there must be something. */
    method Forget(slug: string) returns (error: Option<Error>)
      requires Valid()
      modifies this
      ensures Valid() && catalogue == old(catalogue) - {slug}
      ensures error == if slug in old(catalogue) then None else Some(UnknownBackup)
    {
      if slug !in backups {
        assert catalogue - {slug} == catalogue;
        return Some(UnknownBackup);
      }
      backups := backups - {slug};
      catalogue := catalogue - {slug};
      return None;
    }

    /** Caches a backup under its slug, in place of any other. */
    method Remember(backup: Backup)
      requires Valid()
      modifies this
      ensures Valid() && catalogue == old(catalogue)[SlugOf(backup.data) := backup.View()]
      ensures backup in backups.Values
    {
      backups := backups[SlugOf(backup.data) := backup];
      catalogue := catalogue[SlugOf(backup.data) := backup.View()];
      assert backups[SlugOf(backup.data)] in backups.Values;
    }

    /** The catalogue is what the cached backups are. */
    ghost method Adopt(cat: Catalogue)
      requires Keyed(backups) && Shows(backups, cat)
      modifies this`catalogue
      ensures Valid() && catalogue == cat && backups == old(backups)
    {
      catalogue := cat;
    }

    /** Records in the catalogue that the locations of one cached backup have changed. */
    ghost method Refresh(backup: Backup)
      requires Keyed(backups) && SlugOf(backup.data) in backups && backups[SlugOf(backup.data)] == backup
      requires forall slug :: slug in backups <==> slug in catalogue
      requires forall slug :: slug in backups && backups[slug] != backup ==> backups[slug].View() == catalogue[slug]
      modifies this`catalogue
      ensures Valid() && catalogue == old(catalogue)[SlugOf(backup.data) := backup.View()]
    {
      catalogue := catalogue[SlugOf(backup.data) := backup.View()];
    }

    /** Records the copies that were made on the given backup. */
    method CopyToAdditionalLocations(backup: Backup, location: Location, additional: seq<(Location, Option<string>)>)
      requires backup.locations.Keys == {location}
      modifies backup`locations
      ensures backup.View() == WithCopies(old(backup.View()), old(backup.locations)[location], additional)
    {
      var newLocations: map<Location, string> := map[];
      for i := 0 to |additional|
        invariant newLocations == CopiedPaths(additional[..i])
      {
        assert additional[..i + 1][..i] == additional[..i];
        var (l, path) := additional[i];
        if path.Some? {
          newLocations := newLocations[l := path.value];
        }
      }
      assert additional[..|additional|] == additional;
      var of := backup.locations[location];
      backup.locations := backup.locations
        + map l | l in newLocations :: BackupLocation(newLocations[l], of.protected, of.sizeBytes);
    }

    /** Reads the upload, moves it to its location and reads it again there. */
    method LoadImported(r: Import) returns (loaded: Option<Backup>)
      requires r.mounted
      ensures loaded.Some? <==> r.uploaded.Readable? && r.moved && r.readBack.Readable?
      ensures loaded.Some? ==> fresh(loaded.value) && loaded.value.View() == ImportedEntry(r)
    {
      var upload := new Backup(r.path, "temp", None, None, 0);
      var ok := upload.Load(None, r.uploaded);
      if !ok || !r.moved {
        return None;
      }
      var backup := new Backup(r.path, SlugOf(upload.data), r.location, Some(upload.data), 0);
      ok := backup.Load(r.location, r.readBack);
      return if ok then Some(backup) else None;
    }

    /** Recording the copies shows in the catalogue only if the backup is a cached one. */
    method CopyImported(backup: Backup, location: Location, additional: seq<(Location, Option<string>)>)
      requires Valid() && backup.locations.Keys == {location}
      modifies this`catalogue, backup`locations
      ensures Valid() && backup.View() == WithCopies(old(backup.View()), old(backup.locations)[location], additional)
      ensures catalogue == if backup in backups.Values then old(catalogue)[SlugOf(backup.data) := backup.View()]
                           else old(catalogue)
    {
      hide WithCopies;
      CopyToAdditionalLocations(backup, location, additional);
      if backup in backups.Values {
        Refresh(backup);
      } else {
        assert forall slug :: slug in backups ==> backups[slug] in backups.Values;
      }
    }

    /** Puts an imported backup into the cache, or its location into the cached backup. */
    method CacheImported(backup: Backup) returns (error: Option<Error>)
      requires Valid() && backup !in backups.Values
      modifies this, backups.Values
      ensures Valid() && backup.View() == old(backup.View())
      ensures backup in backups.Values <==> !Consolidates(old(catalogue), backup.View())
      ensures CachedBy(old(catalogue), backup.View(), catalogue, error)
    {
      hide Consolidated;
      error := None;
      var slug := SlugOf(backup.data);
      if slug in backups && backup.locations != backups[slug].locations {
        var r := ConsolidateCached(backups, backup, catalogue);
        if r.Err? {
          error := Some(r.error);
        } else {
          Adopt(catalogue[slug := Consolidated(catalogue[slug], backup.View()).value]);
        }
      } else {
        Remember(backup);
      }
    }

    /** Imports an uploaded file.  If the slug is known with other locations, the cached
        object takes over the new one, and the object handed out is not in the cache. */
    method ImportBackup(r: Import) returns (result: Option<Backup>, error: Option<Error>)
      requires Valid()
      modifies this, backups.Values
      ensures Valid() && catalogue == Imports(old(catalogue), r).0
      ensures match Imports(old(catalogue), r).1
              case NotImported => result.None? && error.None?
              case Rejected(e) => result.None? && error == Some(e)
              case Imported(handed) => result.Some? && error.None? && fresh(result.value) && result.value.View() == handed
      ensures result.Some? ==> (result.value in backups.Values <==> !Consolidates(old(catalogue), ImportedEntry(r)))
    {
      hide WithCopies, CachedBy, Imports;
      ghost var cat := catalogue;
      NoImport(cat, r);
      if !r.mounted {
        return None, Some(MountDown);
      }
      var loaded := LoadImported(r);
      if loaded.None? {
        return None, None;
      }
      var backup := loaded.value;
      error := CacheImported(backup);
      ImportsIs(cat, r, catalogue, error);
      if error.Some? {
        return None, error;
      }
      CopyImported(backup, r.location, r.additional);
      return Some(backup), None;
    }
  }

  lemma {:induction false} KnownIsShorter(locations: map<Location, BackupLocation>, requested: seq<Location>)
    ensures |Known(locations, requested)| <= |requested|
  {
    if requested != [] {
      KnownIsShorter(locations, requested[1..]);
    }
  }

  lemma {:induction false} ListIsAsLong(keys: seq<Location>, locations: map<Location, BackupLocation>)
    requires IsListOf(keys, locations)
    ensures |keys| == |locations|
    decreases |keys|
  {
    assert |locations.Keys| == |locations|;
    if keys == [] {
      assert locations.Keys == {};
    } else {
      var n := |keys| - 1;
      var rest := locations - {keys[n]};
      assert keys[n] in keys;
      assert forall l :: l in keys <==> l in keys[..n] || l == keys[n];
      assert rest.Keys == locations.Keys - {keys[n]} && |rest| == |locations| - 1;
      ListIsAsLong(keys[..n], rest);
    }
  }
}
