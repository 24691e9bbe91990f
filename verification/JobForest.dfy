/** Jobs, the order in which they are listed, and the tree they form.

    The forest is defined by what it must look like (`IsForest`): the roots are the
    given ones, and below every job stand exactly its children, oldest first.  The
    theorems say that this determines the forest, which jobs occur in it, that none
    occurs twice, and for which roots a breadth-first walk ends. */
module JobForest {
  import opened Wrappers

  type Uuid = nat   // hex strings of equal length order like the numbers they denote

  datatype Job = Job(created: int, uuid: Uuid, parentId: Option<Uuid>, internal: bool, info: string)

  datatype Tree = Node(job: Job, children: seq<Tree>)

  ghost predicate UniqueUuids(jobs: seq<Job>) {
    forall i, j :: 0 <= i < j < |jobs| ==> jobs[i].uuid != jobs[j].uuid
  }

  // ---------------------------------------------------------------- sorting

  /** Jobs compare by creation time, then by uuid. */
  predicate Older(a: Job, b: Job) {
    a.created < b.created || (a.created == b.created && a.uuid < b.uuid)
  }

  predicate OldestFirst(jobs: seq<Job>) {
    forall i, j :: 0 <= i < j < |jobs| ==> Older(jobs[i], jobs[j])
  }

  predicate NewestFirst(jobs: seq<Job>) {
    forall i, j :: 0 <= i < j < |jobs| ==> Older(jobs[j], jobs[i])
  }

  function Insert(job: Job, jobs: seq<Job>): seq<Job> {
    if jobs == [] || Older(job, jobs[0]) then [job] + jobs else [jobs[0]] + Insert(job, jobs[1..])
  }

  function Sorted(jobs: seq<Job>): seq<Job> {
    if jobs == [] then [] else Insert(jobs[0], Sorted(jobs[1..]))
  }

  lemma {:induction false} InsertMembers(job: Job, jobs: seq<Job>)
    ensures multiset(Insert(job, jobs)) == multiset(jobs) + multiset{job}
    ensures forall x :: x in Insert(job, jobs) <==> x == job || x in jobs
  {
    if jobs != [] && !Older(job, jobs[0]) {
      InsertMembers(job, jobs[1..]);
      assert jobs == [jobs[0]] + jobs[1..];
    }
  }

  lemma {:induction false} InsertKeepsOrder(job: Job, jobs: seq<Job>)
    requires OldestFirst(jobs) && forall x :: x in jobs ==> x.uuid != job.uuid
    ensures OldestFirst(Insert(job, jobs))
  {
    if jobs != [] && !Older(job, jobs[0]) {
      InsertKeepsOrder(job, jobs[1..]);
      InsertMembers(job, jobs[1..]);
      forall k | 0 <= k < |Insert(job, jobs[1..])|
        ensures Older(jobs[0], Insert(job, jobs[1..])[k])
      {
        assert Insert(job, jobs[1..])[k] in Insert(job, jobs[1..]);
      }
    }
  }

  /** Sorting keeps exactly the given jobs and orders them strictly by age. */
  lemma {:induction false} SortedJobs(jobs: seq<Job>)
    requires UniqueUuids(jobs)
    ensures multiset(Sorted(jobs)) == multiset(jobs)
    ensures forall x :: x in Sorted(jobs) <==> x in jobs
    ensures OldestFirst(Sorted(jobs))
  {
    if jobs != [] {
      SortedJobs(jobs[1..]);
      InsertMembers(jobs[0], Sorted(jobs[1..]));
      InsertKeepsOrder(jobs[0], Sorted(jobs[1..]));
      assert jobs == [jobs[0]] + jobs[1..];
    }
  }

  // ---------------------------------------------------------------- children

  /** The listed jobs with the given parent, in list order. */
  function ChildrenOf(jobs: seq<Job>, parent: Option<Uuid>): seq<Job> {
    if jobs == [] then []
    else
      ChildrenOf(jobs[..|jobs| - 1], parent)
      + if !jobs[|jobs| - 1].internal && jobs[|jobs| - 1].parentId == parent then [jobs[|jobs| - 1]] else []
  }

  function Children(jobs: seq<Job>, job: Job): seq<Job> {
    ChildrenOf(jobs, Some(job.uuid))
  }

  lemma {:induction false} ChildrenMembers(jobs: seq<Job>, parent: Option<Uuid>)
    ensures forall x :: x in ChildrenOf(jobs, parent) <==> x in jobs && !x.internal && x.parentId == parent
  {
    if jobs != [] {
      ChildrenMembers(jobs[..|jobs| - 1], parent);
      assert jobs == jobs[..|jobs| - 1] + [jobs[|jobs| - 1]];
    }
  }

  /** Every child list runs from the oldest to the newest job. */
  lemma {:induction false} ChildrenOldestFirst(jobs: seq<Job>, parent: Option<Uuid>)
    requires OldestFirst(jobs)
    ensures OldestFirst(ChildrenOf(jobs, parent))
  {
    if jobs != [] {
      var rest := jobs[..|jobs| - 1];
      ChildrenOldestFirst(rest, parent);
      ChildrenMembers(rest, parent);
      forall k | 0 <= k < |ChildrenOf(rest, parent)|
        ensures Older(ChildrenOf(rest, parent)[k], jobs[|jobs| - 1])
      {
        assert ChildrenOf(rest, parent)[k] in rest;
      }
    }
  }

  function Reverse(jobs: seq<Job>): seq<Job> {
    seq(|jobs|, i requires 0 <= i < |jobs| => jobs[|jobs| - 1 - i])
  }

  /** The jobs a listing starts from: the given one, or all jobs without a parent,
      newest first. */
  function Starts(jobs: seq<Job>, start: Option<Job>): seq<Job> {
    if start.Some? then [start.value] else Reverse(ChildrenOf(jobs, None))
  }

  lemma RootsNewestFirst(jobs: seq<Job>)
    requires OldestFirst(jobs)
    ensures NewestFirst(Starts(jobs, None))
  {
    ChildrenOldestFirst(jobs, None);
  }

  // ---------------------------------------------------------------- the forest

  function Jobs(ts: seq<Tree>): seq<Job> {
    seq(|ts|, i requires 0 <= i < |ts| => ts[i].job)
  }

  ghost predicate IsTree(jobs: seq<Job>, t: Tree) {
    Jobs(t.children) == Children(jobs, t.job) && forall c :: c in t.children ==> IsTree(jobs, c)
  }

  ghost predicate IsForest(jobs: seq<Job>, roots: seq<Job>, ts: seq<Tree>) {
    Jobs(ts) == roots && forall t :: t in ts ==> IsTree(jobs, t)
  }

  lemma {:induction false} TreeIsUnique(jobs: seq<Job>, t: Tree, u: Tree)
    requires IsTree(jobs, t) && IsTree(jobs, u) && t.job == u.job
    ensures t == u
    decreases t
  {
    assert |t.children| == |Jobs(t.children)| == |Jobs(u.children)| == |u.children|;
    forall i | 0 <= i < |t.children|
      ensures t.children[i] == u.children[i]
    {
      assert Jobs(t.children)[i] == Jobs(u.children)[i];
      TreeIsUnique(jobs, t.children[i], u.children[i]);
    }
    assert t.children == u.children;
  }

  /** The jobs and the roots determine the whole forest. */
  lemma ForestIsUnique(jobs: seq<Job>, roots: seq<Job>, ts: seq<Tree>, us: seq<Tree>)
    requires IsForest(jobs, roots, ts) && IsForest(jobs, roots, us)
    ensures ts == us
  {
    assert |ts| == |Jobs(ts)| == |Jobs(us)| == |us|;
    forall i | 0 <= i < |ts|
      ensures ts[i] == us[i]
    {
      assert Jobs(ts)[i] == Jobs(us)[i];
      TreeIsUnique(jobs, ts[i], us[i]);
    }
  }

  // ---------------------------------------------------------------- which jobs occur

  /** All jobs of a forest, every tree from its root downwards. */
  function Flatten(ts: seq<Tree>): seq<Job> {
    if ts == [] then [] else [ts[0].job] + Flatten(ts[0].children) + Flatten(ts[1..])
  }

  /** A descent from one listed job to the next through child lists. */
  ghost predicate IsPath(jobs: seq<Job>, p: seq<Job>) {
    p != [] && forall i :: 0 <= i < |p| - 1 ==> p[i + 1] in Children(jobs, p[i])
  }

  ghost predicate Leads(jobs: seq<Job>, roots: seq<Job>, p: seq<Job>, job: Job) {
    IsPath(jobs, p) && p[0] in roots && p[|p| - 1] == job
  }

  ghost predicate Reachable(jobs: seq<Job>, roots: seq<Job>, job: Job) {
    exists p :: Leads(jobs, roots, p, job)
  }

  lemma {:induction false} FlattenMember(ts: seq<Tree>, job: Job)
    ensures job in Flatten(ts) <==> exists t :: t in ts && (t.job == job || job in Flatten(t.children))
  {
    if ts != [] {
      FlattenMember(ts[1..], job);
      assert ts == [ts[0]] + ts[1..];
      if job in Flatten(ts) {
        if job == ts[0].job || job in Flatten(ts[0].children) {
          assert ts[0] in ts;
        }
      }
    }
  }

  lemma ChildIsTree(jobs: seq<Job>, t: Tree, c: Job)
    returns (u: Tree)
    requires IsTree(jobs, t) && c in Children(jobs, t.job)
    ensures u in t.children && u.job == c && IsTree(jobs, u)
  {
    var i :| 0 <= i < |Children(jobs, t.job)| && Children(jobs, t.job)[i] == c;
    assert Jobs(t.children)[i] == c;
    u := t.children[i];
  }

  lemma {:induction false} PathOccurs(jobs: seq<Job>, t: Tree, p: seq<Job>)
    requires IsTree(jobs, t) && IsPath(jobs, p) && p[0] == t.job
    ensures p[|p| - 1] in Flatten([t])
    decreases |p|
  {
    FlattenMember([t], p[|p| - 1]);
    assert t in [t];
    if |p| > 1 {
      var u := ChildIsTree(jobs, t, p[1]);
      assert forall i :: 0 <= i < |p| - 2 ==> p[1..][i + 1] in Children(jobs, p[1..][i]);
      PathOccurs(jobs, u, p[1..]);
      FlattenMember([u], p[|p| - 1]);
      FlattenMember(t.children, p[|p| - 1]);
    }
  }

  lemma {:induction false} OccursByPath(jobs: seq<Job>, ts: seq<Tree>, job: Job)
    returns (p: seq<Job>)
    requires (forall t :: t in ts ==> IsTree(jobs, t)) && job in Flatten(ts)
    ensures Leads(jobs, Jobs(ts), p, job)
    decreases ts
  {
    FlattenMember(ts, job);
    var t :| t in ts && (t.job == job || job in Flatten(t.children));
    var k :| 0 <= k < |ts| && ts[k] == t;
    assert Jobs(ts)[k] == t.job;
    if t.job == job {
      p := [job];
    } else {
      var q := OccursByPath(jobs, t.children, job);
      p := [t.job] + q;
      forall i | 0 <= i < |p| - 1
        ensures p[i + 1] in Children(jobs, p[i])
      {
        if i > 0 { assert q[i] in Children(jobs, q[i - 1]); }
      }
    }
  }

  /** A job occurs in the forest exactly when it can be reached from a root through
      parents that are themselves listed; internal parents cut their descendants off. */
  lemma OccursExactlyIfReachable(jobs: seq<Job>, roots: seq<Job>, ts: seq<Tree>, job: Job)
    requires IsForest(jobs, roots, ts)
    ensures job in Flatten(ts) <==> Reachable(jobs, roots, job)
  {
    if job in Flatten(ts) {
      var p := OccursByPath(jobs, ts, job);
    }
    if Reachable(jobs, roots, job) {
      var p :| Leads(jobs, roots, p, job);
      var k :| 0 <= k < |roots| && roots[k] == p[0];
      assert Jobs(ts)[k] == p[0];
      PathOccurs(jobs, ts[k], p);
      FlattenMember([ts[k]], job);
      FlattenMember(ts, job);
    }
  }

  // ---------------------------------------------------------------- no job twice

  ghost predicate NoDuplicates(jobs: seq<Job>) {
    forall i, j :: 0 <= i < j < |jobs| ==> jobs[i] != jobs[j]
  }

  /** No root is reached again from a root: none is a descendant of itself or of
      another root. */
  ghost predicate NoWayBack(jobs: seq<Job>, roots: seq<Job>) {
    forall p :: IsPath(jobs, p) && p[0] in roots && |p| > 1 ==> p[|p| - 1] !in roots
  }

  lemma ParentlessRootsHaveNoWayBack(jobs: seq<Job>)
    ensures NoWayBack(jobs, Starts(jobs, None))
  {
    ChildrenMembers(jobs, None);
    assert forall x :: x in Starts(jobs, None) ==> x in ChildrenOf(jobs, None);
    forall p: seq<Job> | IsPath(jobs, p) && |p| > 1
      ensures p[|p| - 1] !in Starts(jobs, None)
    {
      var n := |p| - 2;
      assert p[n + 1] in Children(jobs, p[n]);
      ChildrenMembers(jobs, Some(p[n].uuid));
    }
  }

  // ---------------------------------------------------------------- climbing to a root

  function Find(jobs: seq<Job>, uuid: Uuid): (job: Option<Job>)
    ensures job.Some? ==> job.value in jobs && job.value.uuid == uuid
    ensures job.None? ==> forall x :: x in jobs ==> x.uuid != uuid
  {
    if jobs == [] then None else if jobs[0].uuid == uuid then Some(jobs[0]) else Find(jobs[1..], uuid)
  }

  /** Following parent ids upwards `n` times, as long as the jobs are known and not internal. */
  function Ancestor(jobs: seq<Job>, job: Job, n: nat): Option<Job>
    decreases n
  {
    if n == 0 then Some(job)
    else if job.internal || job.parentId.None? then None
    else
      var parent := Find(jobs, job.parentId.value);
      if parent.None? then None else Ancestor(jobs, parent.value, n - 1)
  }

  lemma {:induction false} AncestorsAreKnown(jobs: seq<Job>, job: Job, n: nat)
    requires job in jobs
    ensures Ancestor(jobs, job, n).Some? ==> Ancestor(jobs, job, n).value in jobs
    decreases n
  {
    if n > 0 && !job.internal && job.parentId.Some? && Find(jobs, job.parentId.value).Some? {
      AncestorsAreKnown(jobs, Find(jobs, job.parentId.value).value, n - 1);
    }
  }

  lemma {:induction false} AncestorOfAncestor(jobs: seq<Job>, job: Job, m: nat, n: nat)
    ensures Ancestor(jobs, job, m + n)
            == if Ancestor(jobs, job, m).Some? then Ancestor(jobs, Ancestor(jobs, job, m).value, n) else None
    decreases m
  {
    if m > 0 && !job.internal && job.parentId.Some? && Find(jobs, job.parentId.value).Some? {
      AncestorOfAncestor(jobs, Find(jobs, job.parentId.value).value, m - 1, n);
    }
  }

  /** Climbing goes the way back that a path came down. */
  lemma {:induction false} ClimbPath(jobs: seq<Job>, p: seq<Job>)
    requires UniqueUuids(jobs) && IsPath(jobs, p) && p[0] in jobs
    ensures Ancestor(jobs, p[|p| - 1], |p| - 1) == Some(p[0])
  {
    var n := |p| - 1;
    if n > 0 {
      PathToParent(jobs, p);
      ClimbPath(jobs, p[..n]);
      if n > 1 {
        PathToParent(jobs, p[..n]);
      }
      SameUuidSameJob(jobs, p[n - 1], Find(jobs, p[n - 1].uuid).value);
      assert p[n] in Children(jobs, p[n - 1]);
      ChildrenMembers(jobs, Some(p[n - 1].uuid));
    }
  }

  lemma {:induction false} PathToAncestor(jobs: seq<Job>, job: Job, n: nat) returns (p: seq<Job>)
    requires job in jobs && Ancestor(jobs, job, n).Some?
    ensures IsPath(jobs, p) && |p| == n + 1 && Some(p[0]) == Ancestor(jobs, job, n) && p[n] == job
    decreases n
  {
    if n == 0 {
      p := [job];
    } else {
      var parent := Find(jobs, job.parentId.value).value;
      var q := PathToAncestor(jobs, parent, n - 1);
      p := q + [job];
      ChildrenMembers(jobs, Some(parent.uuid));
      assert forall i :: 0 <= i < |q| - 1 ==> p[i + 1] in Children(jobs, p[i]);
    }
  }

  /** If a job is its own ancestor, it is so within as many steps as there are jobs. */
  lemma {:induction false} ShortWayBack(jobs: seq<Job>, job: Job, n: nat) returns (m: nat)
    requires job in jobs && 0 < n && Ancestor(jobs, job, n) == Some(job)
    ensures 0 < m <= |jobs| && Ancestor(jobs, job, m) == Some(job)
    decreases n
  {
    if n <= |jobs| {
      m := n;
    } else {
      forall k | 0 <= k < n
        ensures Ancestor(jobs, job, k).Some? && Ancestor(jobs, job, k).value in jobs
      {
        AncestorOfAncestor(jobs, job, k, n - k);
        AncestorsAreKnown(jobs, job, k);
      }
      var way := seq(n, k requires 0 <= k < n => Ancestor(jobs, job, k).value);
      assert !NoDuplicates(way) by {
        if NoDuplicates(way) {
          DrawnFromIsNoLonger(way, jobs);
        }
      }
      var i: nat, j: nat :| i < j < n && way[i] == way[j];
      AncestorOfAncestor(jobs, job, i, n - j);
      AncestorOfAncestor(jobs, job, j, n - j);
      m := ShortWayBack(jobs, job, i + (n - j));
    }
  }

  /** A duplicate-free sequence of members is not longer than the sequence it is drawn from. */
  lemma {:induction false} DrawnFromIsNoLonger(drawn: seq<Job>, jobs: seq<Job>)
    requires NoDuplicates(drawn) && forall x :: x in drawn ==> x in jobs
    ensures |drawn| <= |jobs|
  {
    if drawn != [] {
      var n := |drawn| - 1;
      assert drawn[n] in drawn;
      var k :| 0 <= k < |jobs| && jobs[k] == drawn[n];
      var rest := jobs[..k] + jobs[k + 1..];
      forall x | x in drawn[..n]
        ensures x in rest
      {
        assert x in drawn && x != drawn[n];
        var m :| 0 <= m < |jobs| && jobs[m] == x;
        assert x == if m < k then rest[m] else rest[m - 1];
      }
      DrawnFromIsNoLonger(drawn[..n], rest);
    }
  }

  /** Is the job met again on the way up from it? */
  predicate IsOwnAncestor(jobs: seq<Job>, job: Job) {
    exists n | 0 < n <= |jobs| :: Ancestor(jobs, job, n) == Some(job)
  }

  /** A single job can serve as root exactly when following parent ids from it, at most once
      for every job, does not lead back to it. */
  lemma NoWayBackExactlyIfNotOwnAncestor(jobs: seq<Job>, start: Job)
    requires UniqueUuids(jobs) && start in jobs
    ensures NoWayBack(jobs, [start]) <==> !IsOwnAncestor(jobs, start)
  {
    if n :| 0 < n <= |jobs| && Ancestor(jobs, start, n) == Some(start) {
      var p := PathToAncestor(jobs, start, n);
      assert p[0] in [start] && p[|p| - 1] in [start];
    }
    if p :| IsPath(jobs, p) && p[0] in [start] && |p| > 1 && p[|p| - 1] in [start] {
      ClimbPath(jobs, p);
      var m := ShortWayBack(jobs, start, |p| - 1);
    }
  }

  function Size(ts: seq<Tree>): nat {
    if ts == [] then 0 else 1 + Size(ts[0].children) + Size(ts[1..])
  }

  lemma {:induction false} OccursAsSubtree(jobs: seq<Job>, ts: seq<Tree>, job: Job)
    returns (u: Tree)
    requires (forall t :: t in ts ==> IsTree(jobs, t)) && job in Flatten(ts)
    ensures IsTree(jobs, u) && u.job == job && Size([u]) <= Size(ts)
    decreases ts
  {
    if job == ts[0].job {
      u := ts[0];
    } else if job in Flatten(ts[0].children) {
      u := OccursAsSubtree(jobs, ts[0].children, job);
    } else {
      u := OccursAsSubtree(jobs, ts[1..], job);
    }
  }

  /** A finite tree never repeats its root further down. */
  lemma NotOwnDescendant(jobs: seq<Job>, t: Tree)
    requires IsTree(jobs, t)
    ensures t.job !in Flatten(t.children)
  {
    if t.job in Flatten(t.children) {
      var u := OccursAsSubtree(jobs, t.children, t.job);
      TreeIsUnique(jobs, t, u);
      assert false;
    }
  }

  /** A job that occurs below the roots has its parent in the forest. */
  lemma {:induction false} PathToParent(jobs: seq<Job>, p: seq<Job>)
    requires IsPath(jobs, p) && |p| > 1
    ensures IsPath(jobs, p[..|p| - 1])
    ensures p[|p| - 1].parentId == Some(p[|p| - 2].uuid)
    ensures p[|p| - 1] in jobs
  {
    var n := |p| - 2;
    assert p[n + 1] in Children(jobs, p[n]);
    ChildrenMembers(jobs, Some(p[n].uuid));
  }

  /** Two trees neither of which contains the root of the other share no job: a shared
      job would have a shared parent, and so on up to one of the roots. */
  lemma {:induction false} TreesAreDisjoint(jobs: seq<Job>, t: Tree, u: Tree, p: seq<Job>, q: seq<Job>)
    requires UniqueUuids(jobs) && IsTree(jobs, t) && IsTree(jobs, u) && t.job in jobs && u.job in jobs
    requires t.job !in Flatten([u]) && u.job !in Flatten([t])
    requires IsPath(jobs, p) && p[0] == t.job && IsPath(jobs, q) && q[0] == u.job
    ensures p[|p| - 1] != q[|q| - 1]
    decreases |p|
  {
    PathOccurs(jobs, t, p);
    PathOccurs(jobs, u, q);
    if |p| > 1 && |q| > 1 {
      PathToParent(jobs, p);
      PathToParent(jobs, q);
      var p', q' := p[..|p| - 1], q[..|q| - 1];
      TreesAreDisjoint(jobs, t, u, p', q');
      PathStays(jobs, p');
      PathStays(jobs, q');
      SameUuidSameJob(jobs, p'[|p'| - 1], q'[|q'| - 1]);
    }
  }

  lemma PathStays(jobs: seq<Job>, p: seq<Job>)
    requires IsPath(jobs, p) && p[0] in jobs
    ensures p[|p| - 1] in jobs
  {
    if |p| > 1 {
      PathToParent(jobs, p);
    }
  }

  lemma SameUuidSameJob(jobs: seq<Job>, a: Job, b: Job)
    requires UniqueUuids(jobs) && a in jobs && b in jobs
    ensures a.uuid == b.uuid ==> a == b
  {
    var i :| 0 <= i < |jobs| && jobs[i] == a;
    var j :| 0 <= j < |jobs| && jobs[j] == b;
  }

  /** Trees standing side by side, none containing the root of another. */
  ghost predicate Apart(jobs: seq<Job>, ts: seq<Tree>) {
    && (forall t :: t in ts ==> IsTree(jobs, t) && t.job in jobs)
    && (forall i, j :: 0 <= i < |ts| && 0 <= j < |ts| && i != j ==> ts[i].job !in Flatten([ts[j]]))
  }

  lemma {:induction false} TreeMemberPath(jobs: seq<Job>, t: Tree, job: Job)
    returns (p: seq<Job>)
    requires IsTree(jobs, t) && job in Flatten([t])
    ensures IsPath(jobs, p) && p[0] == t.job && p[|p| - 1] == job
  {
    p := OccursByPath(jobs, [t], job);
    assert Jobs([t]) == [t.job];
  }

  lemma ChildrenAreApart(jobs: seq<Job>, t: Tree)
    requires UniqueUuids(jobs) && OldestFirst(jobs) && IsTree(jobs, t) && t.job in jobs
    ensures Apart(jobs, t.children)
  {
    var cs := t.children;
    ChildrenMembers(jobs, Some(t.job.uuid));
    ChildrenOldestFirst(jobs, Some(t.job.uuid));
    forall i | 0 <= i < |cs|
      ensures cs[i].job in Children(jobs, t.job)
    {
      assert Jobs(cs)[i] == cs[i].job;
    }
    forall i, j | 0 <= i < |cs| && 0 <= j < |cs| && i != j
      ensures cs[i].job !in Flatten([cs[j]])
    {
      assert cs[i].job == Jobs(cs)[i] && cs[j].job == Jobs(cs)[j];
      assert cs[i].job != cs[j].job;
      if cs[i].job in Flatten([cs[j]]) {
        var p := TreeMemberPath(jobs, cs[j], cs[i].job);
        PathToParent(jobs, p);
        var p' := p[..|p| - 1];
        PathStays(jobs, p');
        SameUuidSameJob(jobs, p'[|p'| - 1], t.job);
        PathOccurs(jobs, cs[j], p');
        FlattenMember([cs[j]], t.job);
        FlattenMember(cs, t.job);
        NotOwnDescendant(jobs, t);
        assert false;
      }
    }
  }

  /** The first of several trees standing apart shares no job with the others. */
  lemma FirstIsDisjoint(jobs: seq<Job>, ts: seq<Tree>, x: Job)
    requires UniqueUuids(jobs) && Apart(jobs, ts) && ts != [] && x in Flatten([ts[0]])
    ensures x !in Flatten(ts[1..])
  {
    if x in Flatten(ts[1..]) {
      FlattenMember(ts[1..], x);
      var u :| u in ts[1..] && (u.job == x || x in Flatten(u.children));
      var k :| 0 <= k < |ts[1..]| && ts[1..][k] == u;
      assert ts[k + 1] == u;
      FlattenMember([u], x);
      var p := TreeMemberPath(jobs, ts[0], x);
      var q := TreeMemberPath(jobs, u, x);
      TreesAreDisjoint(jobs, ts[0], u, p, q);
      assert false;
    }
  }

  lemma RestIsApart(jobs: seq<Job>, ts: seq<Tree>)
    requires Apart(jobs, ts) && ts != []
    ensures Apart(jobs, ts[1..])
  {
    var rest := ts[1..];
    forall i, j | 0 <= i < |rest| && 0 <= j < |rest| && i != j
      ensures rest[i].job !in Flatten([rest[j]])
    {
      assert rest[i] == ts[i + 1] && rest[j] == ts[j + 1];
    }
  }

  lemma {:induction false} ApartHasNoDuplicates(jobs: seq<Job>, ts: seq<Tree>)
    requires UniqueUuids(jobs) && OldestFirst(jobs) && Apart(jobs, ts)
    ensures NoDuplicates(Flatten(ts))
    decreases ts
  {
    if ts != [] {
      ChildrenAreApart(jobs, ts[0]);
      ApartHasNoDuplicates(jobs, ts[0].children);
      NotOwnDescendant(jobs, ts[0]);
      JoinHasNoDuplicates([ts[0].job], Flatten(ts[0].children));
      RestIsApart(jobs, ts);
      ApartHasNoDuplicates(jobs, ts[1..]);
      var first := [ts[0].job] + Flatten(ts[0].children);
      assert Flatten([ts[0]]) == first;
      forall x | x in first
        ensures x !in Flatten(ts[1..])
      {
        FirstIsDisjoint(jobs, ts, x);
      }
      JoinHasNoDuplicates(first, Flatten(ts[1..]));
    }
  }

  lemma JoinHasNoDuplicates(a: seq<Job>, b: seq<Job>)
    requires NoDuplicates(a) && NoDuplicates(b) && forall x :: x in a ==> x !in b
    ensures NoDuplicates(a + b)
  {
    forall i, j | 0 <= i < j < |a + b|
      ensures (a + b)[i] != (a + b)[j]
    {
      if i < |a| <= j {
        assert a[i] in a && b[j - |a|] in b;
      }
    }
  }

  /** No job occurs twice in the forest. */
  lemma NoJobOccursTwice(jobs: seq<Job>, roots: seq<Job>, ts: seq<Tree>)
    requires UniqueUuids(jobs) && OldestFirst(jobs) && IsForest(jobs, roots, ts)
    requires NoDuplicates(roots) && NoWayBack(jobs, roots) && forall r :: r in roots ==> r in jobs
    ensures NoDuplicates(Flatten(ts))
  {
    forall i | 0 <= i < |ts|
      ensures ts[i].job == roots[i]
    {
      assert Jobs(ts)[i] == ts[i].job;
    }
    forall i, j | 0 <= i < |ts| && 0 <= j < |ts| && i != j
      ensures ts[i].job !in Flatten([ts[j]])
    {
      if ts[i].job in Flatten([ts[j]]) {
        var p := TreeMemberPath(jobs, ts[j], ts[i].job);
        assert false;
      }
    }
    ApartHasNoDuplicates(jobs, ts);
  }

  // ---------------------------------------------------------------- the walk

  /** The jobs queued after a breadth-first walk has handled `n` of them, or `None` if
      the queue was empty before that. */
  function QueueAfter(jobs: seq<Job>, roots: seq<Job>, n: nat): Option<seq<Job>> {
    if n == 0 then Some(roots)
    else
      var q := QueueAfter(jobs, roots, n - 1);
      if q.None? || q.value == [] then None else Some(q.value[1..] + Children(jobs, q.value[0]))
  }

  /** If a root is its own ancestor, the queue is never empty: some job of the cycle
      is always in it. */
  lemma {:induction false} CycleNeverLeavesQueue(jobs: seq<Job>, roots: seq<Job>, p: seq<Job>, n: nat)
    returns (k: nat)
    requires IsPath(jobs, p) && |p| > 1 && p[0] in roots && p[|p| - 1] == p[0]
    ensures QueueAfter(jobs, roots, n).Some? && k < |p| && p[k] in QueueAfter(jobs, roots, n).value
  {
    if n == 0 {
      k := 0;
    } else {
      k := CycleNeverLeavesQueue(jobs, roots, p, n - 1);
      var q := QueueAfter(jobs, roots, n - 1).value;
      assert q == [q[0]] + q[1..];
      if p[k] == q[0] {
        if k == |p| - 1 {
          k := 0;
        }
        assert p[k + 1] in Children(jobs, q[0]);
        k := k + 1;
      }
    }
  }

  /** The walk from a job that is its own ancestor does not end. */
  lemma WalkFromCycleNeverEnds(jobs: seq<Job>, start: Job)
    requires !NoWayBack(jobs, [start])
    ensures forall n: nat :: QueueAfter(jobs, [start], n).Some? && QueueAfter(jobs, [start], n).value != []
  {
    var p :| IsPath(jobs, p) && p[0] in [start] && |p| > 1 && p[|p| - 1] in [start];
    forall n: nat
      ensures QueueAfter(jobs, [start], n).Some? && QueueAfter(jobs, [start], n).value != []
    {
      var k := CycleNeverLeavesQueue(jobs, [start], p, n);
    }
  }

  /** Every listed job comes before its children. */
  ghost predicate ParentsFirst(jobs: seq<Job>, order: seq<Job>) {
    forall i, c :: 0 <= i < |order| && c in Children(jobs, order[i]) ==> exists k :: i < k < |order| && order[k] == c
  }

  ghost function LaterIndex(order: seq<Job>, i: nat, c: Job): (k: nat)
    requires exists k :: i < k < |order| && order[k] == c
    ensures i < k < |order| && order[k] == c
  {
    var k :| i < k < |order| && order[k] == c;
    k
  }

  /** The tree below the i-th job of such an order. */
  ghost function TreeAt(jobs: seq<Job>, order: seq<Job>, i: nat): Tree
    requires ParentsFirst(jobs, order) && i < |order|
    decreases |order| - i
  {
    var cs := Children(jobs, order[i]);
    Node(order[i], seq(|cs|, m requires 0 <= m < |cs| =>
      assert cs[m] in cs;
      TreeAt(jobs, order, LaterIndex(order, i, cs[m]))))
  }

  lemma {:induction false} TreeAtIsTree(jobs: seq<Job>, order: seq<Job>, i: nat)
    requires ParentsFirst(jobs, order) && i < |order|
    ensures IsTree(jobs, TreeAt(jobs, order, i)) && TreeAt(jobs, order, i).job == order[i]
    decreases |order| - i
  {
    var t := TreeAt(jobs, order, i);
    var cs := Children(jobs, order[i]);
    forall m | 0 <= m < |cs|
      ensures IsTree(jobs, t.children[m]) && t.children[m].job == cs[m]
    {
      TreeAtIsTree(jobs, order, LaterIndex(order, i, cs[m]));
    }
    assert Jobs(t.children) == cs;
  }
}
