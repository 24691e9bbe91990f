/** The backup catalogue as a value: which backups are known, with which metadata, and
    where their files are.

    Files are loaded by tasks that finish in any order, so a reload is a fold over an
    arbitrary ordering of the files.  `LoadedExactly` says what every ordering yields,
    conflicting files included; the order theorems follow from it. */
module BackupCatalogue {
  import opened Wrappers

  type Location = Option<string>   // None is the local backup folder; mounts by name

  const CLOUD: Location := Some(".cloud_backup")
  const IGNORED_COMPARISON_FIELDS := {"protected", "docker"}

  datatype Value =
    | Null
    | Flag(on: bool)
    | Number(n: real)
    | Text(s: string)
    | Items(items: seq<Value>)
    | Object(fields: map<string, Value>)

  /** Metadata names its backup; a protection flag is optional. */
  predicate IsMetadata(d: map<string, Value>) {
    "slug" in d && d["slug"].Text? && ("protected" in d ==> d["protected"].Flag?)
  }

  type Metadata = d: map<string, Value> | IsMetadata(d) witness map["slug" := Text("temp")]

  function SlugOf(d: Metadata): string { d["slug"].s }

  function ProtectedOf(d: Metadata): bool { "protected" in d && d["protected"].on }

  datatype BackupLocation = BackupLocation(path: string, protected: bool, sizeBytes: nat)

  datatype Entry = Entry(data: Metadata, locations: map<Location, BackupLocation>)

  type Catalogue = map<string, Entry>

  datatype Content = Unreadable | Readable(data: Metadata, size: nat)

  datatype File = File(location: Location, path: string, content: Content)

  datatype Error = NotSameBackup | Conflicting | FileMissing | CannotDelete | UnknownLocation | UnknownBackup | MountDown

  // ---------------------------------------------------------------- consolidation

  /** Two backups agree if their metadata is the same apart from the ignored fields. */
  ghost predicate Agree(d: Metadata, e: Metadata) {
    d - IGNORED_COMPARISON_FIELDS == e - IGNORED_COMPARISON_FIELDS
  }

  /** Field by field: every field that counts is in both, with the same value. */
  ghost predicate SameField(d: Metadata, e: Metadata, k: string) {
    k in d && k in e && d[k] == e[k]
  }

  lemma AgreeFieldByField(d: Metadata, e: Metadata)
    ensures Agree(d, e) <==> forall k :: k in d.Keys + e.Keys - IGNORED_COMPARISON_FIELDS ==> SameField(d, e, k)
  {
    var d', e' := d - IGNORED_COMPARISON_FIELDS, e - IGNORED_COMPARISON_FIELDS;
    if forall k :: k in d.Keys + e.Keys - IGNORED_COMPARISON_FIELDS ==> SameField(d, e, k) {
      forall k
        ensures k in d' <==> k in e'
        ensures k in d' ==> d'[k] == e'[k]
      {
        assert k in d.Keys + e.Keys - IGNORED_COMPARISON_FIELDS ==> SameField(d, e, k);
      }
      assert d' == e';
    }
    forall k | d' == e' && k in d.Keys + e.Keys - IGNORED_COMPARISON_FIELDS
      ensures SameField(d, e, k)
    {
      assert k in d' <==> k in e';
      assert k in d' && d'[k] == e'[k];
    }
  }

  /** The slug is not ignored, so backups that agree are the same backup. */
  lemma AgreeingHaveSameSlug(d: Metadata, e: Metadata)
    requires Agree(d, e)
    ensures SlugOf(d) == SlugOf(e)
  {
    assert (d - IGNORED_COMPARISON_FIELDS)["slug"] == (e - IGNORED_COMPARISON_FIELDS)["slug"];
  }

  /** What consolidating the second backup into the first leaves of the first. */
  ghost function Consolidated(a: Entry, b: Entry): Result<Entry, Error> {
    if SlugOf(a.data) != SlugOf(b.data) then Err(NotSameBackup)
    else if !Agree(a.data, b.data) then Err(Conflicting)
    else Ok(a.(locations := a.locations + b.locations))
  }

  // ---------------------------------------------------------------- loading files

  function LocationOf(f: File): BackupLocation
    requires f.content.Readable?
  {
    BackupLocation(f.path, ProtectedOf(f.content.data), f.content.size)
  }

  /** What one loading task does once it has read its file. */
  ghost function LoadFile(cat: Catalogue, f: File): Catalogue {
    if f.content.Unreadable? then cat
    else
      var found := Entry(f.content.data, map[f.location := LocationOf(f)]);
      var slug := SlugOf(f.content.data);
      if slug in cat then
        match Consolidated(cat[slug], found)
        case Ok(merged) => cat[slug := merged]
        case Err(_) => cat
      else cat[slug := found]
  }

  /** All files, in the order in which their tasks finish. */
  ghost function LoadAll(order: seq<File>): Catalogue {
    if order == [] then map[] else LoadFile(LoadAll(order[..|order| - 1]), order[|order| - 1])
  }

  predicate IsBackup(f: File, slug: string) {
    f.content.Readable? && SlugOf(f.content.data) == slug
  }

  /** The file belongs to the backup with this metadata and lies in this location. */
  ghost predicate Contributes(f: File, data: Metadata, location: Location) {
    f.content.Readable? && Agree(data, f.content.data) && f.location == location
  }

  /** The first file of the backup to be loaded decides its metadata. */
  ghost predicate HasFirstMetadata(e: Entry, slug: string, order: seq<File>) {
    exists i :: 0 <= i < |order| && IsBackup(order[i], slug) && order[i].content.data == e.data
                && forall j :: 0 <= j < i ==> !IsBackup(order[j], slug)
  }

  ghost predicate LastContributor(order: seq<File>, data: Metadata, l: Location, i: nat) {
    i < |order| && Contributes(order[i], data, l) && forall j :: i < j < |order| ==> !Contributes(order[j], data, l)
  }

  /** A location is known exactly if a file contributes it, and of several such files the
      one loaded last stays. */
  ghost predicate HasLastContributed(e: Entry, order: seq<File>, l: Location) {
    && (l in e.locations <==> exists i: nat :: LastContributor(order, e.data, l, i))
    && (l in e.locations ==>
          exists i: nat :: LastContributor(order, e.data, l, i) && e.locations[l] == LocationOf(order[i]))
  }

  ghost predicate Describes(e: Entry, slug: string, order: seq<File>) {
    && SlugOf(e.data) == slug
    && HasFirstMetadata(e, slug, order)
    && forall l :: HasLastContributed(e, order, l)
  }

  /** Any contributor of a location means there is a last one. */
  lemma {:induction false} ContributedHasLast(order: seq<File>, data: Metadata, l: Location, i: nat) returns (k: nat)
    requires i < |order| && Contributes(order[i], data, l)
    ensures LastContributor(order, data, l, k)
    decreases |order| - i
  {
    if j :| i < j < |order| && Contributes(order[j], data, l) {
      k := ContributedHasLast(order, data, l, j);
    } else {
      k := i;
    }
  }

  lemma LastContributorStep(order: seq<File>, f: File, data: Metadata, l: Location, i: nat)
    requires !Contributes(f, data, l)
    ensures LastContributor(order + [f], data, l, i) <==> LastContributor(order, data, l, i)
  {
    var order' := order + [f];
    assert order'[|order|] == f;
    assert forall j :: 0 <= j < |order| ==> order'[j] == order[j];
  }

  /** What an entry of the same slug takes over from one more file. */
  ghost function Absorb(e: Entry, f: File): Entry {
    if f.content.Readable? && Agree(e.data, f.content.data)
    then e.(locations := e.locations + map[f.location := LocationOf(f)])
    else e
  }

  lemma AbsorbKeepsContributed(e: Entry, order: seq<File>, f: File, l: Location)
    requires HasLastContributed(e, order, l)
    ensures HasLastContributed(Absorb(e, f), order + [f], l)
  {
    var order', e' := order + [f], Absorb(e, f);
    if Contributes(f, e.data, l) {
      assert LastContributor(order', e.data, l, |order|) && order'[|order|] == f;
    } else {
      forall i: nat
        ensures LastContributor(order', e.data, l, i) <==> LastContributor(order, e.data, l, i)
      {
        LastContributorStep(order, f, e.data, l, i);
      }
      if l in e.locations {
        var i: nat :| LastContributor(order, e.data, l, i) && e.locations[l] == LocationOf(order[i]);
        assert LastContributor(order', e.data, l, i) && order'[i] == order[i];
      }
    }
  }

  lemma AbsorbKeepsDescription(e: Entry, slug: string, order: seq<File>, f: File)
    requires Describes(e, slug, order)
    ensures Describes(Absorb(e, f), slug, order + [f])
  {
    forall l
      ensures HasLastContributed(Absorb(e, f), order + [f], l)
    {
      AbsorbKeepsContributed(e, order, f, l);
    }
    var i :| 0 <= i < |order| && IsBackup(order[i], slug) && order[i].content.data == e.data
             && forall j :: 0 <= j < i ==> !IsBackup(order[j], slug);
    assert IsBackup((order + [f])[i], slug);
  }

  lemma FirstFileDescribes(f: File, slug: string, order: seq<File>)
    requires IsBackup(f, slug) && forall i :: 0 <= i < |order| ==> !IsBackup(order[i], slug)
    ensures Describes(Entry(f.content.data, map[f.location := LocationOf(f)]), slug, order + [f])
  {
    var e := Entry(f.content.data, map[f.location := LocationOf(f)]);
    forall l
      ensures HasLastContributed(e, order + [f], l)
    {
      assert HasLastContributed(Entry(e.data, map[]), order, l) by {
        forall i: nat
          ensures !LastContributor(order, e.data, l, i)
        {
          if LastContributor(order, e.data, l, i) {
            AgreeingHaveSameSlug(e.data, order[i].content.data);
          }
        }
      }
      AbsorbKeepsContributed(Entry(e.data, map[]), order, f, l);
      assert map[] + map[f.location := LocationOf(f)] == e.locations;
    }
    assert IsBackup((order + [f])[|order|], slug);
  }

  ghost predicate SomeBackup(order: seq<File>, slug: string) {
    exists i :: 0 <= i < |order| && IsBackup(order[i], slug)
  }

  /** Every ordering of every set of files, conflicting or not, yields exactly this: an
      entry per slug with a readable file, with the metadata of the first such file and
      with the locations of the files that agree with it. */
  lemma {:induction false} LoadedExactly(order: seq<File>, slug: string)
    ensures slug in LoadAll(order) <==> SomeBackup(order, slug)
    ensures slug in LoadAll(order) ==> Describes(LoadAll(order)[slug], slug, order)
  {
    if order != [] {
      var rest, f := order[..|order| - 1], order[|order| - 1];
      assert order == rest + [f];
      LoadedExactly(rest, slug);
      SomeBackupStep(rest, f, slug);
      var before := LoadAll(rest);
      if slug in before {
        AbsorbKeepsDescription(before[slug], slug, rest, f);
        LoadFileAbsorbs(before, f, slug);
      } else if IsBackup(f, slug) {
        assert forall i :: 0 <= i < |rest| ==> !IsBackup(rest[i], slug);
        FirstFileDescribes(f, slug, rest);
      }
    }
  }

  lemma SomeBackupStep(order: seq<File>, f: File, slug: string)
    ensures SomeBackup(order + [f], slug) <==> SomeBackup(order, slug) || IsBackup(f, slug)
  {
    var order' := order + [f];
    assert order'[|order|] == f;
    if i :| 0 <= i < |order| && IsBackup(order[i], slug) {
      assert IsBackup(order'[i], slug);
    }
  }

  lemma LoadFileAbsorbs(cat: Catalogue, f: File, slug: string)
    requires slug in cat && SlugOf(cat[slug].data) == slug
    ensures slug in LoadFile(cat, f) && LoadFile(cat, f)[slug] == Absorb(cat[slug], f)
  {
    if f.content.Readable? && Agree(cat[slug].data, f.content.data) {
      AgreeingHaveSameSlug(cat[slug].data, f.content.data);
    }
  }

  // ---------------------------------------------------------------- independence of the order

  /** The same files, each at least once, in any order. */
  ghost predicate SameFiles(p: seq<File>, q: seq<File>) {
    forall f :: f in p <==> f in q
  }

  ghost predicate SameBackup(f: File, g: File) {
    f.content.Readable? && g.content.Readable? && SlugOf(f.content.data) == SlugOf(g.content.data)
  }

  /** Readable files that share a slug agree. */
  ghost predicate Consistent(files: seq<File>) {
    forall f, g :: f in files && g in files && SameBackup(f, g) ==> Agree(f.content.data, g.content.data)
  }

  /** At most one readable file per slug and location. */
  ghost predicate Unambiguous(files: seq<File>) {
    forall f, g :: f in files && g in files && SameBackup(f, g) && f.location == g.location ==> f == g
  }

  /** The file of a backup in a location. */
  ghost predicate IsFileOf(f: File, files: seq<File>, slug: string, l: Location) {
    f in files && IsBackup(f, slug) && f.location == l
  }

  /** The entry has a location exactly if the backup has a file there, with its path,
      protection and size. */
  ghost predicate GroupsLocation(e: Entry, files: seq<File>, slug: string, l: Location) {
    && (l in e.locations <==> exists f :: IsFileOf(f, files, slug, l))
    && (forall f :: IsFileOf(f, files, slug, l) && l in e.locations ==> e.locations[l] == LocationOf(f))
  }

  /** A full reload of consistent, unambiguous files is their grouping by slug and location. */
  lemma ReloadGroupsTheFiles(order: seq<File>, slug: string, l: Location)
    requires Consistent(order) && Unambiguous(order) && slug in LoadAll(order)
    ensures GroupsLocation(LoadAll(order)[slug], order, slug, l)
  {
    LoadedExactly(order, slug);
    var e := LoadAll(order)[slug];
    var i :| 0 <= i < |order| && IsBackup(order[i], slug) && order[i].content.data == e.data;
    assert HasLastContributed(e, order, l);
    forall f | IsFileOf(f, order, slug, l)
      ensures l in e.locations
    {
      var k :| 0 <= k < |order| && order[k] == f;
      assert SameBackup(order[i], f) && Contributes(order[k], e.data, l);
      var last := ContributedHasLast(order, e.data, l, k);
    }
    if l in e.locations {
      var k: nat :| LastContributor(order, e.data, l, k) && e.locations[l] == LocationOf(order[k]);
      AgreeingHaveSameSlug(e.data, order[k].content.data);
      assert IsFileOf(order[k], order, slug, l);
      assert forall f :: IsFileOf(f, order, slug, l) ==> SameBackup(f, order[k]);
    }
  }

  /** The same slugs, with agreeing metadata and equal locations. */
  ghost predicate SameUpToIgnored(a: Catalogue, b: Catalogue) {
    && a.Keys == b.Keys
    && forall slug :: slug in a ==> Agree(a[slug].data, b[slug].data) && a[slug].locations == b[slug].locations
  }

  /** A full reload does not depend on the order in which the tasks finish. */
  lemma ReloadIgnoresTheOrder(p: seq<File>, q: seq<File>)
    requires SameFiles(p, q) && Consistent(p) && Unambiguous(p)
    ensures SameUpToIgnored(LoadAll(p), LoadAll(q))
  {
    var a, b := LoadAll(p), LoadAll(q);
    forall slug
      ensures slug in a <==> slug in b
      ensures slug in a ==> Agree(a[slug].data, b[slug].data) && a[slug].locations == b[slug].locations
    {
      LoadedExactly(p, slug);
      LoadedExactly(q, slug);
      SameFilesSameBackups(p, q, slug);
      if slug in a {
        LocationsCoincide(p, q, slug);
      }
    }
  }

  lemma SameFilesSameBackups(p: seq<File>, q: seq<File>, slug: string)
    requires SameFiles(p, q)
    ensures SomeBackup(p, slug) <==> SomeBackup(q, slug)
  {
    if i :| 0 <= i < |p| && IsBackup(p[i], slug) {
      assert p[i] in q;
      var k :| 0 <= k < |q| && q[k] == p[i];
    }
    if i :| 0 <= i < |q| && IsBackup(q[i], slug) {
      assert q[i] in p;
      var k :| 0 <= k < |p| && p[k] == q[i];
    }
  }

  lemma LocationsCoincide(p: seq<File>, q: seq<File>, slug: string)
    requires SameFiles(p, q) && Consistent(p) && Unambiguous(p) && slug in LoadAll(p) && slug in LoadAll(q)
    ensures LoadAll(p)[slug].locations == LoadAll(q)[slug].locations
  {
    var a, b := LoadAll(p)[slug], LoadAll(q)[slug];
    forall l
      ensures l in a.locations <==> l in b.locations
      ensures l in a.locations ==> a.locations[l] == b.locations[l]
    {
      ReloadGroupsTheFiles(p, slug, l);
      ReloadGroupsTheFiles(q, slug, l);
      assert forall f :: IsFileOf(f, p, slug, l) <==> IsFileOf(f, q, slug, l);
    }
  }

  /** Without the assumption the order matters: of two conflicting files the one loaded
      first wins. */
  lemma ConflictingFilesDependOnTheOrder()
    ensures exists f, g :: SameFiles([f, g], [g, f]) && Unambiguous([f, g])
                           && !SameUpToIgnored(LoadAll([f, g]), LoadAll([g, f]))
  {
    var d: Metadata := map["slug" := Text("a"), "protected" := Flag(false), "name" := Text("x")];
    var e: Metadata := d["name" := Text("y")];
    var f, g := File(None, "f", Readable(d, 1)), File(CLOUD, "g", Readable(e, 1));
    LoadedExactly([f, g], "a");
    LoadedExactly([g, f], "a");
    assert IsBackup([f, g][0], "a") && IsBackup([g, f][0], "a");
    assert LoadAll([f, g])["a"].data == d && LoadAll([g, f])["a"].data == e;
    assert (d - IGNORED_COMPARISON_FIELDS)["name"] != (e - IGNORED_COMPARISON_FIELDS)["name"];
    assert !Agree(d, e);
  }

  ghost predicate Reordered(p: seq<File>, files: seq<File>) {
    multiset(p) == multiset(files)
  }

  /** One path holds one file. */
  ghost predicate DistinctPaths(files: seq<File>) {
    forall f, g :: f in files && g in files && f.location == g.location && f.path == g.path ==> f == g
  }

  lemma ReorderedHasSameFiles(p: seq<File>, q: seq<File>)
    requires multiset(p) == multiset(q)
    ensures SameFiles(p, q)
  {
    assert forall f :: f in p <==> f in multiset(p);
    assert forall f :: f in q <==> f in multiset(q);
  }

  /** The same files with a given one loaded first. */
  lemma LoadedFirst(files: seq<File>, f: File) returns (p: seq<File>)
    requires f in files && f.content.Readable?
    ensures Reordered(p, files) && SlugOf(f.content.data) in LoadAll(p)
    ensures LoadAll(p)[SlugOf(f.content.data)].data == f.content.data
  {
    var i :| 0 <= i < |files| && files[i] == f;
    p := [f] + (files[..i] + files[i + 1..]);
    assert files == files[..i] + [f] + files[i + 1..];
    var slug := SlugOf(f.content.data);
    assert p[0] == f && IsBackup(p[0], slug);
    LoadedExactly(p, slug);
  }

  lemma LastWins(p: seq<File>)
    requires p != [] && p[|p| - 1].content.Readable? && Consistent(p)
    ensures var f := p[|p| - 1]; var slug := SlugOf(f.content.data);
            && slug in LoadAll(p) && f.location in LoadAll(p)[slug].locations
            && LoadAll(p)[slug].locations[f.location] == LocationOf(f)
  {
    var n := |p| - 1;
    var slug, l := SlugOf(p[n].content.data), p[n].location;
    assert IsBackup(p[n], slug);
    LoadedExactly(p, slug);
    var e := LoadAll(p)[slug];
    assert Describes(e, slug, p);
    hide LoadAll;
    var k :| 0 <= k < |p| && IsBackup(p[k], slug) && p[k].content.data == e.data;
    assert p[k] in p && p[n] in p && SameBackup(p[k], p[n]);
    assert LastContributor(p, e.data, l, n);
    assert HasLastContributed(e, p, l);
    var m: nat :| LastContributor(p, e.data, l, m) && e.locations[l] == LocationOf(p[m]);
    assert m == n;
  }

  /** The same files with a given one loaded last. */
  lemma LoadedLast(files: seq<File>, f: File) returns (p: seq<File>)
    requires f in files && f.content.Readable? && Consistent(files)
    ensures Reordered(p, files) && SlugOf(f.content.data) in LoadAll(p)
    ensures var e := LoadAll(p)[SlugOf(f.content.data)];
            f.location in e.locations && e.locations[f.location] == LocationOf(f)
  {
    var i :| 0 <= i < |files| && files[i] == f;
    p := files[..i] + files[i + 1..] + [f];
    assert files == files[..i] + [f] + files[i + 1..];
    ReorderedHasSameFiles(p, files);
    LastWins(p);
  }

  ghost predicate OrderIsIrrelevant(files: seq<File>) {
    forall p, q :: Reordered(p, files) && Reordered(q, files) ==> SameUpToIgnored(LoadAll(p), LoadAll(q))
  }

  /** The order in which the tasks finish is irrelevant exactly for files that are consistent
      and unambiguous. */
  lemma OrderIsIrrelevantExactly(files: seq<File>)
    requires DistinctPaths(files)
    ensures OrderIsIrrelevant(files) <==> Consistent(files) && Unambiguous(files)
  {
    if Consistent(files) && Unambiguous(files) {
      forall p, q | Reordered(p, files) && Reordered(q, files)
        ensures SameUpToIgnored(LoadAll(p), LoadAll(q))
      {
        ReorderedHasSameFiles(p, files);
        ReorderedHasSameFiles(q, files);
        ReloadIgnoresTheOrder(p, q);
      }
    } else if !Consistent(files) {
      var f, g :| f in files && g in files && SameBackup(f, g) && !Agree(f.content.data, g.content.data);
      var p := LoadedFirst(files, f);
      var q := LoadedFirst(files, g);
      assert !SameUpToIgnored(LoadAll(p), LoadAll(q));
    } else {
      var f, g :| f in files && g in files && SameBackup(f, g) && f.location == g.location && f != g;
      var p := LoadedLast(files, f);
      var q := LoadedLast(files, g);
      assert LocationOf(f) != LocationOf(g);
      assert !SameUpToIgnored(LoadAll(p), LoadAll(q));
    }
  }

  // ---------------------------------------------------------------- what is recorded of a file

  /** The recorded location is that of the file: its path, whether its metadata calls it
      protected, and its size. */
  ghost predicate IsRecordOf(b: BackupLocation, f: File) {
    && f.content.Readable?
    && b.path == f.path
    && (b.protected <==> "protected" in f.content.data && f.content.data["protected"] == Flag(true))
    && b.sizeBytes == f.content.size
  }

  /** The same metadata, whatever is said about protection and docker. */
  ghost predicate SameMetadata(d: map<string, Value>, e: map<string, Value>) {
    forall k :: k != "protected" && k != "docker" ==> (k in d <==> k in e) && (k in d ==> d[k] == e[k])
  }

  lemma AgreeIsSameMetadata(d: Metadata, e: Metadata)
    ensures Agree(d, e) <==> SameMetadata(d, e)
  {
    AgreeFieldByField(d, e);
    forall k | Agree(d, e) && k != "protected" && k != "docker"
      ensures (k in d <==> k in e) && (k in d ==> d[k] == e[k])
    {
      assert k in d.Keys + e.Keys - IGNORED_COMPARISON_FIELDS ==> SameField(d, e, k);
    }
  }

  ghost predicate Recorded(cat: Catalogue, f: File)
    requires f.content.Readable?
  {
    var slug := f.content.data["slug"].s;
    slug in cat && f.location in cat[slug].locations && IsRecordOf(cat[slug].locations[f.location], f)
  }

  /** After a full reload in any order: a slug is cached exactly if a readable file names it, and
      every recorded location is that of a file there with the same metadata. */
  lemma FullReloadRecordsFiles(order: seq<File>, slug: string, l: Location)
    ensures slug in LoadAll(order)
            <==> exists i :: 0 <= i < |order| && order[i].content.Readable? && order[i].content.data["slug"] == Text(slug)
    ensures slug in LoadAll(order) && l in LoadAll(order)[slug].locations ==>
              exists i :: 0 <= i < |order| && order[i].location == l
                          && IsRecordOf(LoadAll(order)[slug].locations[l], order[i])
                          && SameMetadata(LoadAll(order)[slug].data, order[i].content.data)
  {
    LoadedExactly(order, slug);
    assert forall i :: 0 <= i < |order| ==>
      (IsBackup(order[i], slug) <==> order[i].content.Readable? && order[i].content.data["slug"] == Text(slug));
    if slug in LoadAll(order) && l in LoadAll(order)[slug].locations {
      var e := LoadAll(order)[slug];
      assert HasLastContributed(e, order, l);
      var i: nat :| LastContributor(order, e.data, l, i) && e.locations[l] == LocationOf(order[i]);
      AgreeIsSameMetadata(e.data, order[i].content.data);
    }
  }

  /** After a full reload of consistent, unambiguous files every readable file is recorded. */
  lemma FullReloadRecordsEveryFile(order: seq<File>, f: File)
    requires Consistent(order) && Unambiguous(order) && f in order && f.content.Readable?
    ensures Recorded(LoadAll(order), f)
  {
    var slug := SlugOf(f.content.data);
    LoadedExactly(order, slug);
    var i :| 0 <= i < |order| && order[i] == f;
    assert IsBackup(order[i], slug);
    ReloadGroupsTheFiles(order, slug, f.location);
    assert IsFileOf(f, order, slug, f.location);
  }
}
