/** The job listing of the jobs API.

    The listing is built by a queue: a job's child list is put into its parent's list
    while it is still empty and is filled later, through the reference the queue holds.
    `ListJobs` is that loop over heap lists; it is proved to leave a heap structure
    that shows the forest defined in `JobForest`. */
module JobTree {
  import opened Wrappers
  import opened JobForest

  /** What a job is rendered to: everything but its parent, and its child list by
      reference. */
  datatype JobDict = JobDict(uuid: Uuid, created: int, info: string, childJobs: JobList)

  class JobList {
    var items: seq<JobDict>

    constructor ()
      ensures items == []
    {
      items := [];
    }
  }

  /** Does the dict render this job, child list aside? */
  predicate Renders(d: JobDict, job: Job) {
    d.uuid == job.uuid && d.created == job.created && d.info == job.info
  }

  /** Read through the heap, the list shows exactly these trees. */
  ghost predicate Shows(list: JobList, ts: seq<Tree>)
    reads *
    decreases ts
  {
    && |list.items| == |ts|
    && forall i :: 0 <= i < |ts| ==> Renders(list.items[i], ts[i].job) && Shows(list.items[i].childJobs, ts[i].children)
  }

  /** The jobs whose children go into the list with the given key: `None` is the result
      list itself. */
  function Kids(jobs: seq<Job>, roots: seq<Job>, key: Option<Uuid>): seq<Job> {
    if key.None? then roots else ChildrenOf(jobs, key)
  }

  // ---------------------------------------------------------------- the queue as a value

  /** The key of the list to append to, and the job. */
  datatype Entry = Entry(key: Option<Uuid>, job: Job)

  function QueuedJobs(queue: seq<Entry>): seq<Job> {
    seq(|queue|, i requires 0 <= i < |queue| => queue[i].job)
  }

  function IfFor(e: Entry, key: Option<Uuid>): seq<Job> {
    if e.key == key then [e.job] else []
  }

  /** The jobs still queued for one list. */
  function Pending(queue: seq<Entry>, key: Option<Uuid>): seq<Job> {
    if queue == [] then [] else IfFor(queue[0], key) + Pending(queue[1..], key)
  }

  function Entries(key: Option<Uuid>, jobs: seq<Job>): seq<Entry> {
    seq(|jobs|, i requires 0 <= i < |jobs| => Entry(key, jobs[i]))
  }

  lemma {:induction false} PendingOfAppend(a: seq<Entry>, b: seq<Entry>, key: Option<Uuid>)
    ensures Pending(a + b, key) == Pending(a, key) + Pending(b, key)
  {
    if a == [] {
      assert a + b == b;
    } else {
      calc {
        Pending(a + b, key);
        { assert (a + b)[1..] == a[1..] + b; }
        IfFor(a[0], key) + Pending(a[1..] + b, key);
        { PendingOfAppend(a[1..], b, key); }
        IfFor(a[0], key) + (Pending(a[1..], key) + Pending(b, key));
        (IfFor(a[0], key) + Pending(a[1..], key)) + Pending(b, key);
        Pending(a, key) + Pending(b, key);
      }
    }
  }

  lemma {:induction false} PendingOfEntries(key: Option<Uuid>, jobs: seq<Job>, other: Option<Uuid>)
    ensures Pending(Entries(key, jobs), other) == if other == key then jobs else []
  {
    if jobs != [] {
      PendingOfEntries(key, jobs[1..], other);
      assert Entries(key, jobs)[1..] == Entries(key, jobs[1..]);
    }
  }

  lemma {:induction false} PendingOfUnused(queue: seq<Entry>, key: Option<Uuid>)
    requires forall e :: e in queue ==> e.key != key
    ensures Pending(queue, key) == []
  {
    if queue != [] {
      PendingOfUnused(queue[1..], key);
    }
  }

  // ---------------------------------------------------------------- the order of the walk

  ghost predicate AllReachable(jobs: seq<Job>, roots: seq<Job>, listed: seq<Job>) {
    forall x :: x in listed ==> x in jobs && Reachable(jobs, roots, x)
  }

  ghost predicate ParentsHandled(jobs: seq<Job>, roots: seq<Job>, listed: seq<Job>, h: nat) {
    forall x :: x in listed && x !in roots ==> exists y :: 0 <= y < h && y < |listed| && x in Children(jobs, listed[y])
  }

  ghost predicate ChildrenFollow(jobs: seq<Job>, listed: seq<Job>, h: nat) {
    forall i, c :: 0 <= i < h && i < |listed| && c in Children(jobs, listed[i]) ==>
      exists k :: i < k < |listed| && listed[k] == c
  }

  /** The walk has listed these jobs and handled the first `h` of them; the others are
      the queue.  No job is listed twice, every listed job is reachable from a root and,
      unless it is a root, a child of a handled one, and every child of a handled job is
      listed after it. */
  ghost predicate Walk(jobs: seq<Job>, roots: seq<Job>, listed: seq<Job>, h: nat) {
    && h <= |listed|
    && NoDuplicates(listed)
    && AllReachable(jobs, roots, listed)
    && ParentsHandled(jobs, roots, listed, h)
    && ChildrenFollow(jobs, listed, h)
    && QueueAfter(jobs, roots, h) == Some(listed[h..])
  }

  lemma WalkStarts(jobs: seq<Job>, roots: seq<Job>)
    requires NoDuplicates(roots) && forall r :: r in roots ==> r in jobs
    ensures Walk(jobs, roots, roots, 0)
  {
    forall r | r in roots
      ensures Reachable(jobs, roots, r)
    {
      assert Leads(jobs, roots, [r], r);
    }
    assert roots[0..] == roots;
  }

  lemma ChildIsReachable(jobs: seq<Job>, roots: seq<Job>, job: Job, c: Job)
    requires Reachable(jobs, roots, job) && c in Children(jobs, job) && NoWayBack(jobs, roots)
    ensures Reachable(jobs, roots, c) && c !in roots
  {
    var p :| Leads(jobs, roots, p, job);
    assert Leads(jobs, roots, p + [c], c);
  }

  /** The children of the first queued job have not been listed before. */
  lemma ChildrenAreFresh(jobs: seq<Job>, roots: seq<Job>, listed: seq<Job>, h: nat, c: Job)
    requires UniqueUuids(jobs) && NoWayBack(jobs, roots)
    requires Walk(jobs, roots, listed, h) && h < |listed| && c in Children(jobs, listed[h])
    ensures c !in listed && c in jobs && Reachable(jobs, roots, c)
  {
    var job := listed[h];
    ChildrenMembers(jobs, Some(job.uuid));
    ChildIsReachable(jobs, roots, job, c);
    if c in listed {
      var y :| 0 <= y < h && y < |listed| && c in Children(jobs, listed[y]);
      ChildrenMembers(jobs, Some(listed[y].uuid));
      SameUuidSameJob(jobs, listed[y], job);
      assert false;
    }
  }

  lemma AdvanceKeepsDistinct(jobs: seq<Job>, roots: seq<Job>, listed: seq<Job>, h: nat)
    requires UniqueUuids(jobs) && OldestFirst(jobs) && NoWayBack(jobs, roots)
    requires Walk(jobs, roots, listed, h) && h < |listed|
    ensures NoDuplicates(listed + Children(jobs, listed[h]))
    ensures AllReachable(jobs, roots, listed + Children(jobs, listed[h]))
  {
    var cs := Children(jobs, listed[h]);
    ChildrenOldestFirst(jobs, Some(listed[h].uuid));
    forall c | c in cs
      ensures c !in listed && c in jobs && Reachable(jobs, roots, c)
    {
      ChildrenAreFresh(jobs, roots, listed, h, c);
    }
    JoinHasNoDuplicates(listed, cs);
  }

  lemma AdvanceKeepsChildren(jobs: seq<Job>, listed: seq<Job>, h: nat)
    requires ChildrenFollow(jobs, listed, h) && h < |listed|
    ensures ChildrenFollow(jobs, listed + Children(jobs, listed[h]), h + 1)
  {
    var cs := Children(jobs, listed[h]);
    var listed' := listed + cs;
    forall i, c | 0 <= i < h + 1 && c in Children(jobs, listed'[i])
      ensures exists k :: i < k < |listed'| && listed'[k] == c
    {
      if i < h {
        var k :| i < k < |listed| && listed[k] == c;
        assert listed'[k] == c;
      } else {
        var m :| 0 <= m < |cs| && cs[m] == c;
        assert listed'[|listed| + m] == c;
      }
    }
  }

  lemma AdvanceKeepsParents(jobs: seq<Job>, roots: seq<Job>, listed: seq<Job>, h: nat)
    requires ParentsHandled(jobs, roots, listed, h) && h < |listed|
    ensures ParentsHandled(jobs, roots, listed + Children(jobs, listed[h]), h + 1)
  {
    var listed' := listed + Children(jobs, listed[h]);
    forall x | x in listed' && x !in roots
      ensures exists y :: 0 <= y < h + 1 && y < |listed'| && x in Children(jobs, listed'[y])
    {
      if x in listed {
        var y :| 0 <= y < h && y < |listed| && x in Children(jobs, listed[y]);
        assert listed'[y] == listed[y];
      } else {
        assert listed'[h] == listed[h];
      }
    }
  }

  /** Handling the first queued job keeps all of this. */
  lemma WalkAdvances(jobs: seq<Job>, roots: seq<Job>, listed: seq<Job>, h: nat)
    requires UniqueUuids(jobs) && OldestFirst(jobs) && NoWayBack(jobs, roots)
    requires Walk(jobs, roots, listed, h) && h < |listed|
    ensures Walk(jobs, roots, listed + Children(jobs, listed[h]), h + 1)
  {
    AdvanceKeepsDistinct(jobs, roots, listed, h);
    AdvanceKeepsChildren(jobs, listed, h);
    AdvanceKeepsParents(jobs, roots, listed, h);
    QueueAdvances(jobs, roots, listed, h);
  }

  lemma QueueAdvances(jobs: seq<Job>, roots: seq<Job>, listed: seq<Job>, h: nat)
    requires h < |listed| && QueueAfter(jobs, roots, h) == Some(listed[h..])
    ensures QueueAfter(jobs, roots, h + 1) == Some((listed + Children(jobs, listed[h]))[h + 1..])
  {
    assert (listed + Children(jobs, listed[h]))[h + 1..] == listed[h..][1..] + Children(jobs, listed[h]);
  }

  lemma WalkIsBounded(jobs: seq<Job>, roots: seq<Job>, listed: seq<Job>, h: nat)
    requires Walk(jobs, roots, listed, h)
    ensures h <= |listed| <= |jobs| && QueueAfter(jobs, roots, h) == Some(listed[h..])
  {
    DrawnFromIsNoLonger(listed, jobs);
  }

  lemma {:induction false} WalkEnds(jobs: seq<Job>, roots: seq<Job>, listed: seq<Job>, h: nat) returns (n: nat)
    requires UniqueUuids(jobs) && OldestFirst(jobs) && NoWayBack(jobs, roots) && Walk(jobs, roots, listed, h)
    ensures QueueAfter(jobs, roots, n) == Some([])
    decreases |jobs| - h
  {
    hide Walk, QueueAfter, Children, UniqueUuids, OldestFirst, NoWayBack;
    WalkIsBounded(jobs, roots, listed, h);
    if h == |listed| {
      assert listed[h..] == [];
      n := h;
    } else {
      WalkAdvances(jobs, roots, listed, h);
      WalkIsBounded(jobs, roots, listed + Children(jobs, listed[h]), h + 1);
      n := WalkEnds(jobs, roots, listed + Children(jobs, listed[h]), h + 1);
    }
  }

  /** The walk from one listed job ends exactly when that job is not its own ancestor. */
  lemma WalkEndsExactlyIfAcyclic(jobs: seq<Job>, start: Job)
    requires UniqueUuids(jobs) && OldestFirst(jobs) && start in jobs
    ensures (exists n: nat :: QueueAfter(jobs, [start], n) == Some([])) <==> !IsOwnAncestor(jobs, start)
  {
    NoWayBackExactlyIfNotOwnAncestor(jobs, start);
    if NoWayBack(jobs, [start]) {
      WalkStarts(jobs, [start]);
      var n := WalkEnds(jobs, [start], [start], 0);
    } else {
      WalkFromCycleNeverEnds(jobs, start);
    }
  }

  // ---------------------------------------------------------------- filling the lists

  /** Every list holds the first of its jobs, each with the list of that job's children
      as its child list, and the rest of its jobs are queued, in order. */
  ghost predicate Filled(jobs: seq<Job>, roots: seq<Job>, listOf: map<Option<Uuid>, JobList>,
                         contents: map<Option<Uuid>, seq<JobDict>>, queue: seq<Entry>)
  {
    && listOf.Keys == contents.Keys
    && (forall e :: e in queue ==> e.key in listOf)
    && (forall key :: key in listOf ==> FilledFor(Kids(jobs, roots, key), listOf, contents[key], Pending(queue, key)))
  }

  ghost predicate FilledFor(kids: seq<Job>, listOf: map<Option<Uuid>, JobList>, items: seq<JobDict>, rest: seq<Job>) {
    && |items| <= |kids|
    && kids[|items|..] == rest
    && forall m :: 0 <= m < |items| ==> Linked(items[m], kids[m], listOf)
  }

  ghost predicate Linked(d: JobDict, job: Job, listOf: map<Option<Uuid>, JobList>) {
    Renders(d, job) && Some(job.uuid) in listOf && d.childJobs == listOf[Some(job.uuid)]
  }

  lemma FilledStarts(jobs: seq<Job>, roots: seq<Job>, jobList: JobList)
    ensures Filled(jobs, roots, map[None := jobList], map[None := []], Entries(None, roots))
  {
    PendingOfEntries(None, roots, None);
  }

  lemma FilledAdvancesAt(jobs: seq<Job>, roots: seq<Job>, listOf: map<Option<Uuid>, JobList>,
                         contents: map<Option<Uuid>, seq<JobDict>>, queue: seq<Entry>, d: JobDict, key: Option<Uuid>)
    requires Filled(jobs, roots, listOf, contents, queue) && queue != []
    requires Some(queue[0].job.uuid) !in listOf && Renders(d, queue[0].job)
    requires key in listOf || key == Some(queue[0].job.uuid)
    ensures var e := queue[0];
            var mine := Some(e.job.uuid);
            var items := if key == mine then [] else if key == e.key then contents[key] + [d] else contents[key];
            FilledFor(Kids(jobs, roots, key), listOf[mine := d.childJobs], items,
                      Pending(queue[1..] + Entries(mine, Children(jobs, e.job)), key))
  {
    var mine := Some(queue[0].job.uuid);
    PendingAfter(jobs, queue, mine, key, listOf);
    if key != mine {
      FilledForAdvances(Kids(jobs, roots, key), listOf, mine, d, contents[key], queue, key);
    }
  }

  /** Appending the first queued job to its list, with an empty child list, and queueing
      its children keeps this. */
  lemma FilledAdvances(jobs: seq<Job>, roots: seq<Job>, listOf: map<Option<Uuid>, JobList>,
                       contents: map<Option<Uuid>, seq<JobDict>>, queue: seq<Entry>, d: JobDict)
    requires Filled(jobs, roots, listOf, contents, queue) && queue != []
    requires Some(queue[0].job.uuid) !in listOf && Renders(d, queue[0].job)
    ensures var e := queue[0];
            var mine := Some(e.job.uuid);
            e.key in listOf
            && Filled(jobs, roots, listOf[mine := d.childJobs],
                      contents[e.key := contents[e.key] + [d]][mine := []],
                      queue[1..] + Entries(mine, Children(jobs, e.job)))
  {
    hide FilledFor, Kids, Pending, Children, ChildrenOf;
    var e := queue[0];
    assert e in queue;
    var mine := Some(e.job.uuid);
    var listOf' := listOf[mine := d.childJobs];
    var contents' := contents[e.key := contents[e.key] + [d]][mine := []];
    var queue' := queue[1..] + Entries(mine, Children(jobs, e.job));
    forall key | key in listOf'
      ensures FilledFor(Kids(jobs, roots, key), listOf', contents'[key], Pending(queue', key))
    {
      FilledAdvancesAt(jobs, roots, listOf, contents, queue, d, key);
    }
    forall x | x in queue'
      ensures x.key in listOf'
    {
      assert x in queue[1..] ==> x in queue;
    }
  }

  lemma PendingAfter(jobs: seq<Job>, queue: seq<Entry>, mine: Option<Uuid>, key: Option<Uuid>,
                     listOf: map<Option<Uuid>, JobList>)
    requires queue != [] && mine == Some(queue[0].job.uuid) && mine !in listOf
    requires forall e :: e in queue ==> e.key in listOf
    ensures Pending(queue[1..] + Entries(mine, Children(jobs, queue[0].job)), key)
            == if key == mine then Children(jobs, queue[0].job) else Pending(queue[1..], key)
  {
    var added := Entries(mine, Children(jobs, queue[0].job));
    PendingOfAppend(queue[1..], added, key);
    PendingOfEntries(mine, Children(jobs, queue[0].job), key);
    if key == mine {
      assert forall e :: e in queue[1..] ==> e in queue;
      PendingOfUnused(queue[1..], mine);
    }
  }

  lemma FilledForAdvances(kids: seq<Job>, listOf: map<Option<Uuid>, JobList>, mine: Option<Uuid>, d: JobDict,
                          items: seq<JobDict>, queue: seq<Entry>, key: Option<Uuid>)
    requires FilledFor(kids, listOf, items, Pending(queue, key)) && queue != []
    requires mine == Some(queue[0].job.uuid) && mine !in listOf && Renders(d, queue[0].job)
    ensures FilledFor(kids, listOf[mine := d.childJobs], if key == queue[0].key then items + [d] else items,
                      Pending(queue[1..], key))
  {
    if key == queue[0].key {
      assert kids[|items|..][0] == queue[0].job;
      assert kids[|items| + 1..] == kids[|items|..][1..];
    }
  }

  /** Once the queue is empty, every list shows its part of the forest. */
  lemma {:induction false} FilledShowsTree(jobs: seq<Job>, roots: seq<Job>, order: seq<Job>,
                                           listOf: map<Option<Uuid>, JobList>,
                                           contents: map<Option<Uuid>, seq<JobDict>>, i: nat)
    requires Filled(jobs, roots, listOf, contents, []) && ParentsFirst(jobs, order) && i < |order|
    requires forall key :: key in listOf ==> listOf[key].items == contents[key]
    requires Some(order[i].uuid) in listOf
    ensures Shows(listOf[Some(order[i].uuid)], TreeAt(jobs, order, i).children)
    decreases |order| - i
  {
    var key, cs := Some(order[i].uuid), Children(jobs, order[i]);
    var ts, items := TreeAt(jobs, order, i).children, contents[key];
    assert FilledFor(cs, listOf, items, []);
    assert |items| == |cs|;
    forall m | 0 <= m < |ts|
      ensures Renders(items[m], ts[m].job) && Shows(items[m].childJobs, ts[m].children)
    {
      assert Linked(items[m], cs[m], listOf);
      var k := LaterIndex(order, i, cs[m]);
      TreeAtIsTree(jobs, order, k);
      FilledShowsTree(jobs, roots, order, listOf, contents, k);
    }
  }

  lemma ForestShows(jobs: seq<Job>, roots: seq<Job>, order: seq<Job>, listOf: map<Option<Uuid>, JobList>,
                    contents: map<Option<Uuid>, seq<JobDict>>, forest: seq<Tree>)
    requires Filled(jobs, roots, listOf, contents, []) && ParentsFirst(jobs, order)
    requires forall key :: key in listOf ==> listOf[key].items == contents[key]
    requires None in listOf && |roots| <= |order| && order[..|roots|] == roots
    requires |forest| == |roots| && forall i :: 0 <= i < |roots| ==> forest[i] == TreeAt(jobs, order, i)
    ensures IsForest(jobs, roots, forest) && Shows(listOf[None], forest)
  {
    assert FilledFor(roots, listOf, contents[None], []);
    forall i | 0 <= i < |roots|
      ensures IsTree(jobs, forest[i]) && forest[i].job == roots[i]
      ensures Linked(contents[None][i], roots[i], listOf) && Shows(contents[None][i].childJobs, forest[i].children)
    {
      assert order[..|roots|][i] == order[i];
      assert Linked(contents[None][i], roots[i], listOf);
      TreeAtIsTree(jobs, order, i);
      FilledShowsTree(jobs, roots, order, listOf, contents, i);
    }
    assert Jobs(forest) == roots;
  }

  lemma HandledUuidsDiffer(jobs: seq<Job>, roots: seq<Job>, listed: seq<Job>, h: nat)
    requires UniqueUuids(jobs) && Walk(jobs, roots, listed, h) && h < |listed|
    ensures forall i :: 0 <= i < h ==> listed[i].uuid != listed[h].uuid
  {
    forall i | 0 <= i < h
      ensures listed[i].uuid != listed[h].uuid
    {
      assert listed[i] in listed && listed[h] in listed;
      SameUuidSameJob(jobs, listed[i], listed[h]);
    }
  }

  // ---------------------------------------------------------------- the listing

  /** The jobs a listing may start from: all parentless ones, or a known job that is not
      its own ancestor. */
  ghost predicate Listable(jobs: seq<Job>, start: Option<Job>) {
    start.Some? ==> start.value in jobs && !IsOwnAncestor(Sorted(jobs), start.value)
  }

  lemma StartsAreGood(jobs: seq<Job>, start: Option<Job>)
    requires UniqueUuids(jobs) && Listable(jobs, start)
    ensures var sorted := Sorted(jobs); var roots := Starts(sorted, start);
            && OldestFirst(sorted) && UniqueUuids(sorted)
            && NoDuplicates(roots) && NoWayBack(sorted, roots)
            && (forall r :: r in roots ==> r in sorted)
  {
    var sorted := Sorted(jobs);
    SortedJobs(jobs);
    SortedIsUnique(jobs);
    ChildrenMembers(sorted, None);
    if start.None? {
      ParentlessRootsHaveNoWayBack(sorted);
      RootsNewestFirst(sorted);
      assert forall x :: x in Starts(sorted, None) ==> x in ChildrenOf(sorted, None);
    } else {
      NoWayBackExactlyIfNotOwnAncestor(sorted, start.value);
    }
  }

  lemma SortedIsUnique(jobs: seq<Job>)
    requires UniqueUuids(jobs)
    ensures UniqueUuids(Sorted(jobs))
  {
    var sorted := Sorted(jobs);
    SortedJobs(jobs);
    forall i, j | 0 <= i < j < |sorted|
      ensures sorted[i].uuid != sorted[j].uuid
    {
      assert Older(sorted[i], sorted[j]);
      assert sorted[i] in sorted && sorted[j] in sorted;
      SameUuidSameJob(jobs, sorted[i], sorted[j]);
    }
  }

  ghost predicate Grouped(sorted: seq<Job>, jobsByParent: map<Option<Uuid>, seq<Job>>) {
    && (forall parent :: parent in jobsByParent <==> ChildrenOf(sorted, parent) != [])
    && (forall parent :: parent in jobsByParent ==> jobsByParent[parent] == ChildrenOf(sorted, parent))
  }

  /** How far the loop has come, on values: the jobs listed and handled, the queue by
      list key, and which heap list has which key and content. */
  datatype Progress = Progress(roots: seq<Job>, listed: seq<Job>, handled: nat, queue: seq<Entry>,
                               listOf: map<Option<Uuid>, JobList>, contents: map<Option<Uuid>, seq<JobDict>>)
  {
    ghost predicate Valid(sorted: seq<Job>, heapQueue: seq<(JobList, Job)>) {
      && None in listOf
      && listOf.Keys == contents.Keys
      && Walk(sorted, roots, listed, handled)
      && |roots| <= |listed| && listed[..|roots|] == roots
      && Filled(sorted, roots, listOf, contents, queue)
      && QueuedJobs(queue) == listed[handled..]
      && QueueHolds(heapQueue, queue, listOf)
      && KeysAreHandled(listed, handled, listOf)
      && (forall key, other :: key in listOf && other in listOf && key != other ==> listOf[key] != listOf[other])
    }

    /** The heap lists have the recorded contents. */
    ghost predicate Held()
      reads listOf.Values
    {
      listOf.Keys == contents.Keys && forall key :: key in listOf ==> listOf[key].items == contents[key]
    }

    ghost function Advance(sorted: seq<Job>, d: JobDict): Progress
      requires queue != [] && queue[0].key in contents
    {
      var e := queue[0];
      var mine := Some(e.job.uuid);
      var kids := Children(sorted, e.job);
      Progress(roots, listed + kids, handled + 1, queue[1..] + Entries(mine, kids),
               listOf[mine := d.childJobs], contents[e.key := contents[e.key] + [d]][mine := []])
    }
  }

  /** The jobs, each paired with the list to append it to. */
  function PairedWith(list: JobList, jobs: seq<Job>): seq<(JobList, Job)> {
    seq(|jobs|, i requires 0 <= i < |jobs| => (list, jobs[i]))
  }

  /** The queue holds references to the lists with the recorded keys. */
  ghost predicate QueueHolds(heapQueue: seq<(JobList, Job)>, queue: seq<Entry>, listOf: map<Option<Uuid>, JobList>) {
    && |heapQueue| == |queue|
    && forall i :: 0 <= i < |queue| ==>
         queue[i].key in listOf && heapQueue[i] == (listOf[queue[i].key], queue[i].job)
  }

  ghost predicate KeysAreHandled(listed: seq<Job>, handled: nat, listOf: map<Option<Uuid>, JobList>) {
    && handled <= |listed|
    && forall key :: key in listOf && key.Some? ==> exists i :: 0 <= i < handled && key == Some(listed[i].uuid)
  }

  lemma KeysAreHandledAdvances(listed: seq<Job>, h: nat, listOf: map<Option<Uuid>, JobList>, child: JobList, kids: seq<Job>)
    requires KeysAreHandled(listed, h, listOf) && h < |listed|
    ensures KeysAreHandled(listed + kids, h + 1, listOf[Some(listed[h].uuid) := child])
  {
    var listOf' := listOf[Some(listed[h].uuid) := child];
    forall key | key in listOf' && key.Some?
      ensures exists i :: 0 <= i < h + 1 && key == Some((listed + kids)[i].uuid)
    {
      if key == Some(listed[h].uuid) {
        assert (listed + kids)[h] == listed[h];
      } else {
        var i :| 0 <= i < h && key == Some(listed[i].uuid);
        assert (listed + kids)[i] == listed[i];
      }
    }
  }

  /** One iteration of the loop, on values. */
  ghost method ProgressAdvances(sorted: seq<Job>, heapQueue: seq<(JobList, Job)>, d: JobDict, walk: Progress)
    requires UniqueUuids(sorted) && OldestFirst(sorted) && NoWayBack(sorted, walk.roots)
    requires walk.Valid(sorted, heapQueue) && heapQueue != []
    requires Renders(d, heapQueue[0].1) && d.childJobs !in walk.listOf.Values
    ensures walk.queue != [] && walk.queue[0].key in walk.contents && walk.queue[0].job == heapQueue[0].1
    ensures Some(heapQueue[0].1.uuid) !in walk.listOf
    ensures walk.Advance(sorted, d).Valid(sorted, heapQueue[1..] + PairedWith(d.childJobs, Children(sorted, heapQueue[0].1)))
  {
    hide Filled, QueueAfter, NoWayBack, OldestFirst, UniqueUuids, Children, ChildrenOf, AllReachable, ParentsHandled, ChildrenFollow, NoDuplicates;
    var job, h := heapQueue[0].1, walk.handled;
    var kids, mine := Children(sorted, job), Some(job.uuid);
    assert |QueuedJobs(walk.queue)| == |walk.queue|;
    assert walk.queue != [] && walk.queue[0].job == walk.listed[h];
    assert QueuedJobs(walk.queue[1..] + Entries(mine, kids)) == (walk.listed + kids)[h + 1..];
    HandledUuidsDiffer(sorted, walk.roots, walk.listed, h);
    FilledAdvances(sorted, walk.roots, walk.listOf, walk.contents, walk.queue, d);
    WalkAdvances(sorted, walk.roots, walk.listed, h);
    KeysAreHandledAdvances(walk.listed, h, walk.listOf, d.childJobs, kids);
    assert (walk.listed + kids)[..|walk.roots|] == walk.roots;
  }

  /** No more jobs are handled than there are. */
  ghost method ProgressIsBounded(sorted: seq<Job>, heapQueue: seq<(JobList, Job)>, walk: Progress)
    requires walk.Valid(sorted, heapQueue) && heapQueue != []
    ensures walk.handled < |sorted|
  {
    WalkIsBounded(sorted, walk.roots, walk.listed, walk.handled);
    assert |QueuedJobs(walk.queue)| == |heapQueue|;
  }

  ghost method ProgressStarts(sorted: seq<Job>, roots: seq<Job>, jobList: JobList) returns (walk: Progress)
    requires NoDuplicates(roots) && forall r :: r in roots ==> r in sorted
    ensures walk == Progress(roots, roots, 0, Entries(None, roots), map[None := jobList], map[None := []])
    ensures walk.Valid(sorted, PairedWith(jobList, roots))
  {
    walk := Progress(roots, roots, 0, Entries(None, roots), map[None := jobList], map[None := []]);
    WalkStarts(sorted, roots);
    FilledStarts(sorted, roots, jobList);
  }

  /** When the queue is empty, the result list shows the forest. */
  ghost method ForestShown(sorted: seq<Job>, walk: Progress) returns (forest: seq<Tree>)
    requires walk.Valid(sorted, []) && walk.Held()
    ensures IsForest(sorted, walk.roots, forest) && Shows(walk.listOf[None], forest)
    ensures QueueAfter(sorted, walk.roots, walk.handled) == Some([])
  {
    var listed, roots := walk.listed, walk.roots;
    assert |QueuedJobs(walk.queue)| == 0;
    assert listed[walk.handled..] == [];
    assert ParentsFirst(sorted, listed);
    forest := seq(|roots|, i requires 0 <= i < |roots| => TreeAt(sorted, listed, i));
    ForestShows(sorted, roots, listed, walk.listOf, walk.contents, forest);
  }

  /** What the listing contains: the jobs reachable from the starting points through
      listed parents, each exactly once, roots newest first, children oldest first. */
  lemma ListingIsExact(jobs: seq<Job>, start: Option<Job>, forest: seq<Tree>)
    requires UniqueUuids(jobs) && Listable(jobs, start)
    requires IsForest(Sorted(jobs), Starts(Sorted(jobs), start), forest)
    ensures forall job :: job in Flatten(forest) <==> Reachable(Sorted(jobs), Starts(Sorted(jobs), start), job)
    ensures NoDuplicates(Flatten(forest))
    ensures start.None? ==> NewestFirst(Jobs(forest))
    ensures start.Some? ==> Jobs(forest) == [start.value]
    ensures forall job :: OldestFirst(Children(Sorted(jobs), job))
  {
    var sorted := Sorted(jobs);
    var roots := Starts(sorted, start);
    StartsAreGood(jobs, start);
    forall job
      ensures job in Flatten(forest) <==> Reachable(sorted, roots, job)
      ensures OldestFirst(Children(sorted, job))
    {
      OccursExactlyIfReachable(sorted, roots, forest, job);
      ChildrenOldestFirst(sorted, Some(job.uuid));
    }
    NoJobOccursTwice(sorted, roots, forest);
    RootsNewestFirst(sorted);
  }

  ghost predicate IsRoot(jobs: seq<Job>, job: Job) {
    job in jobs && !job.internal && job.parentId.None?
  }

  /** Without a start, the roots of the listing are all jobs that are not internal and have no
      parent, the one created last coming first. */
  lemma RootsAreTheParentless(jobs: seq<Job>, forest: seq<Tree>)
    requires UniqueUuids(jobs) && IsForest(Sorted(jobs), Starts(Sorted(jobs), None), forest)
    ensures forall job :: job in Jobs(forest) <==> IsRoot(jobs, job)
    ensures forall i, j :: 0 <= i < j < |forest| ==>
              forest[i].job.created > forest[j].job.created
              || (forest[i].job.created == forest[j].job.created && forest[i].job.uuid > forest[j].job.uuid)
  {
    var sorted := Sorted(jobs);
    SortedJobs(jobs);
    ChildrenMembers(sorted, None);
    RootsNewestFirst(sorted);
    ReverseKeepsMembers(ChildrenOf(sorted, None));
    hide Sorted, ChildrenOf, Reverse, IsTree, UniqueUuids;
    assert forall i :: 0 <= i < |forest| ==> Jobs(forest)[i] == forest[i].job;
    forall i, j | 0 <= i < j < |forest|
      ensures Older(forest[j].job, forest[i].job)
    {
      assert Older(Jobs(forest)[j], Jobs(forest)[i]);
    }
  }

  lemma ReverseKeepsMembers(jobs: seq<Job>)
    ensures forall job :: job in Reverse(jobs) <==> job in jobs
  {
    forall job | job in jobs
      ensures job in Reverse(jobs)
    {
      var k :| 0 <= k < |jobs| && jobs[k] == job;
      assert Reverse(jobs)[|jobs| - 1 - k] == job;
    }
  }

  /** Below every job stand all jobs that are not internal and name it as their parent, the one
      created first coming first. */
  lemma ChildrenAreThoseOfTheParent(jobs: seq<Job>, t: Tree)
    requires UniqueUuids(jobs) && IsTree(Sorted(jobs), t)
    ensures forall job :: job in Jobs(t.children)
              <==> job in jobs && !job.internal && job.parentId == Some(t.job.uuid)
    ensures forall i, j :: 0 <= i < j < |t.children| ==>
              t.children[i].job.created < t.children[j].job.created
              || (t.children[i].job.created == t.children[j].job.created && t.children[i].job.uuid < t.children[j].job.uuid)
  {
    SortedJobs(jobs);
    ChildrenMembers(Sorted(jobs), Some(t.job.uuid));
    ChildrenOldestFirst(Sorted(jobs), Some(t.job.uuid));
    assert forall i :: 0 <= i < |t.children| ==> Jobs(t.children)[i] == t.children[i].job;
    forall i, j | 0 <= i < j < |t.children|
      ensures Older(t.children[i].job, t.children[j].job)
    {
      assert Older(Jobs(t.children)[i], Jobs(t.children)[j]);
    }
  }

  class APIJobs {
    var jobs: seq<Job>   // the jobs of the job manager, in no particular order

    constructor (jobs: seq<Job>)
      ensures this.jobs == jobs
    {
      this.jobs := jobs;
    }

    /** The non-internal jobs by parent; every list keeps the given order. */
    method GroupByParent(sorted: seq<Job>) returns (jobsByParent: map<Option<Uuid>, seq<Job>>)
      ensures Grouped(sorted, jobsByParent)
    {
      jobsByParent := map[];
      for i := 0 to |sorted|
        invariant Grouped(sorted[..i], jobsByParent)
      {
        var job := sorted[i];
        assert sorted[..i + 1] == sorted[..i] + [job];
        if job.internal {
          continue;
        }
        if job.parentId !in jobsByParent {
          jobsByParent := jobsByParent[job.parentId := [job]];
        } else {
          jobsByParent := jobsByParent[job.parentId := jobsByParent[job.parentId] + [job]];
        }
      }
      assert sorted[..|sorted|] == sorted;
    }

    /** The body of the loop: append the first queued job to the list the queue holds for
        it, with a new empty child list, and queue its children for that list. */
    method HandleNext(sorted: seq<Job>, queue: seq<(JobList, Job)>, jobsByParent: map<Option<Uuid>, seq<Job>>,
                      ghost walk: Progress)
      returns (queue': seq<(JobList, Job)>, jobDict: JobDict, ghost walk': Progress)
      requires UniqueUuids(sorted) && OldestFirst(sorted) && NoWayBack(sorted, walk.roots)
      requires Grouped(sorted, jobsByParent) && queue != []
      requires walk.Valid(sorted, queue) && walk.Held()
      modifies walk.listOf.Values
      ensures jobDict == JobDict(queue[0].1.uuid, queue[0].1.created, queue[0].1.info, jobDict.childJobs)
      ensures Renders(jobDict, queue[0].1) && fresh(jobDict.childJobs) && jobDict.childJobs.items == []
      ensures queue[0].0.items == old(queue[0].0.items) + [jobDict]
      ensures queue' == queue[1..] + PairedWith(jobDict.childJobs, Children(sorted, queue[0].1))
      ensures walk.queue != [] && walk.queue[0].key in walk.contents && walk' == walk.Advance(sorted, jobDict)
      ensures walk'.Valid(sorted, queue') && walk'.Held()
      ensures walk'.roots == walk.roots && walk'.handled == walk.handled + 1
      ensures None in walk.listOf && None in walk'.listOf && walk'.listOf[None] == walk.listOf[None]
      ensures fresh(walk'.listOf.Values - walk.listOf.Values)
    {
      hide Walk, Filled, ChildrenOf, NoWayBack, OldestFirst, UniqueUuids, KeysAreHandled;
      var (currentList, currentJob) := queue[0];
      var childJobs := new JobList();
      jobDict := JobDict(currentJob.uuid, currentJob.created, currentJob.info, childJobs);
      currentList.items := currentList.items + [jobDict];

      queue' := queue[1..];
      if Some(currentJob.uuid) in jobsByParent {
        queue' := queue' + PairedWith(childJobs, jobsByParent[Some(currentJob.uuid)]);
      }
      ProgressAdvances(sorted, queue, jobDict, walk);
      walk' := walk.Advance(sorted, jobDict);
    }

    /** The listing shows the one forest that belongs to the jobs and the starting
        points, and the walk has emptied its queue after finitely many jobs. */
    method ListJobs(start: Option<Job>) returns (jobList: JobList, ghost forest: seq<Tree>)
      requires UniqueUuids(jobs) && Listable(jobs, start)
      ensures IsForest(Sorted(jobs), Starts(Sorted(jobs), start), forest)
      ensures Shows(jobList, forest) && fresh(jobList)
      ensures start.None? ==> forall job :: job in Jobs(forest) <==> IsRoot(jobs, job)
      ensures exists n: nat :: QueueAfter(Sorted(jobs), Starts(Sorted(jobs), start), n) == Some([])
    {
      hide Progress.Valid, Progress.Advance, NoWayBack, OldestFirst, UniqueUuids, NoDuplicates, IsForest, Shows, QueueAfter,
           Starts, Children, Renders, PairedWith;
      var sorted := Sorted(jobs);
      ghost var roots := Starts(sorted, start);
      StartsAreGood(jobs, start);
      var jobsByParent := GroupByParent(sorted);

      jobList := new JobList();
      var starts := StartJobs(sorted, start, jobsByParent);
      var queue := PairedWith(jobList, starts);

      ghost var walk := ProgressStarts(sorted, roots, jobList);

      assert walk.Held() && walk.Valid(sorted, queue);
      while queue != []
        invariant walk.Valid(sorted, queue) && walk.Held() && walk.roots == roots
        invariant None in walk.listOf && walk.listOf[None] == jobList && fresh(walk.listOf.Values)
        decreases |sorted| - walk.handled
      {
        ProgressIsBounded(sorted, queue, walk);
        var jobDict;
        queue, jobDict, walk := HandleNext(sorted, queue, jobsByParent, walk);
      }

      forest := ForestShown(sorted, walk);
      if start.None? {
        RootsAreTheParentless(jobs, forest);
      }
    }

    /** The given job, or the parentless ones, newest first. */
    method StartJobs(sorted: seq<Job>, start: Option<Job>, jobsByParent: map<Option<Uuid>, seq<Job>>)
      returns (starts: seq<Job>)
      requires Grouped(sorted, jobsByParent)
      ensures starts == Starts(sorted, start)
    {
      starts := [];
      if start.Some? {
        starts := [start.value];
      } else if None in jobsByParent {
        starts := Reverse(jobsByParent[None]);
      }
    }

    /** The listing of one known job has exactly one element, which is returned. */
    method JobInfo(job: Job) returns (info: JobDict, ghost tree: Tree)
      requires UniqueUuids(jobs) && Listable(jobs, Some(job))
      ensures IsTree(Sorted(jobs), tree) && tree.job == job
      ensures info == JobDict(job.uuid, job.created, job.info, info.childJobs)
      ensures Renders(info, job) && Shows(info.childJobs, tree.children)
    {
      var jobList, forest := ListJobs(Some(job));
      assert |Jobs(forest)| == |forest| == 1;
      info, tree := jobList.items[0], forest[0];
      assert Jobs(forest)[0] == tree.job;
    }
  }
}
