/** The path of operating system upgrades: which version is offered to a given version. */
module Updater {
  import opened Wrappers

  /** A version; equal versions have equal majors. */
  datatype Version = Version(major: Option<nat>, rest: string)

  type UpgradeMap = map<nat, Version>   // the last version of each mapped major

  /** The offered version, from the fetched data and the installed version. */
  function VersionHassos(upgrades: Option<UpgradeMap>, unrestricted: Option<Version>, current: Option<Version>)
    : Option<Version>
  {
    if upgrades.None? || upgrades.value == map[] then unrestricted
    else if unrestricted.None? || current.None? || current.value.major.None? then unrestricted
    else
      var m, major := upgrades.value, current.value.major.value;
      if major in m then
        if current.value != m[major] then Some(m[major])
        else if major + 1 in m then Some(m[major + 1])
        else unrestricted
      else unrestricted
  }

  /** Is the major of the installed version known and mapped? */
  predicate IsMapped(upgrades: Option<UpgradeMap>, current: Option<Version>) {
    upgrades.Some? && current.Some? && current.value.major.Some? && current.value.major.value in upgrades.value
  }

  /** The map restricts an offer only from a mapped major, and never makes one out of nothing. */
  lemma OfferIsRestrictedOnlyIfMapped(
    upgrades: Option<UpgradeMap>, unrestricted: Option<Version>, current: Option<Version>)
    ensures VersionHassos(upgrades, unrestricted, current).None? <==> unrestricted.None?
    ensures !IsMapped(upgrades, current) ==> VersionHassos(upgrades, unrestricted, current) == unrestricted
  {
  }

  /** Every entry belongs to its own major. */
  ghost predicate OwnMajors(m: UpgradeMap) {
    forall k :: k in m ==> m[k].major == Some(k)
  }

  /** The version after the offered one has been installed `k` times. */
  function After(m: UpgradeMap, unrestricted: Version, current: Version, k: nat): Version {
    if k == 0 then current
    else
      var v := After(m, unrestricted, current, k - 1);
      var offered := VersionHassos(Some(m), Some(unrestricted), Some(v));
      if offered.Some? then offered.value else v
  }

  ghost function From(m: UpgradeMap, major: nat): set<nat> {
    set k | k in m && major <= k
  }

  lemma FromShrinks(m: UpgradeMap, major: nat)
    requires major in m
    ensures |From(m, major)| == |From(m, major + 1)| + 1
  {
    assert From(m, major) == From(m, major + 1) + {major};
  }

  /** How many mapped majors follow each other from `major` on, itself included. */
  ghost function Chain(m: UpgradeMap, major: nat): nat
    decreases |From(m, major)|
  {
    if major in m then
      FromShrinks(m, major);
      1 + Chain(m, major + 1)
    else 0
  }

  /** The chain holds mapped majors only, and stops at one that is not mapped. */
  lemma {:induction false} ChainIs(m: UpgradeMap, major: nat, k: nat)
    ensures k < Chain(m, major) ==> major + k in m
    ensures major + Chain(m, major) !in m
    ensures Chain(m, major) <= |From(m, major)|
    decreases |From(m, major)|
  {
    if major in m {
      FromShrinks(m, major);
      ChainIs(m, major + 1, if k > 0 then k - 1 else 0);
    }
  }

  /** From the last version of a mapped major the offers go through the last versions of the
      following ones, without leaving any out, and then to the unrestricted version. */
  lemma {:induction false} OffersFollowTheChain(
    m: UpgradeMap, unrestricted: Version, current: Version, major: nat, k: nat)
    requires OwnMajors(m) && major in m && current == m[major]
    requires k <= Chain(m, major)
    ensures k < Chain(m, major) ==> major + k in m && After(m, unrestricted, current, k) == m[major + k]
    ensures k == Chain(m, major) ==> After(m, unrestricted, current, k) == unrestricted
  {
    ChainIs(m, major, k);
    if k > 0 {
      ChainIs(m, major, k - 1);
      OffersFollowTheChain(m, unrestricted, current, major, k - 1);
    }
  }

  /** How many installations lead from the current version to the unrestricted one. */
  ghost function Steps(m: UpgradeMap, current: Version, major: nat): nat {
    if major in m then Chain(m, major) + if current == m[major] then 0 else 1 else 1
  }

  /** The offers in order: the last versions of the mapped majors from the current one up to
      the first that is not mapped, leaving out the current version itself; then the
      unrestricted version. */
  lemma UpgradePath(m: UpgradeMap, unrestricted: Version, current: Version, major: nat, k: nat)
    requires OwnMajors(m) && m != map[] && current.major == Some(major)
    ensures var steps := Steps(m, current, major);
            var first := if major in m && current == m[major] then major else major - 1;
            && (0 < k < steps ==> first + k in m && After(m, unrestricted, current, k) == m[first + k])
            && (k == steps ==> After(m, unrestricted, current, k) == unrestricted)
  {
    if major in m {
      if current == m[major] {
        if k <= Chain(m, major) {
          OffersFollowTheChain(m, unrestricted, current, major, k);
        }
      } else if 0 < k <= Chain(m, major) + 1 {
        assert After(m, unrestricted, current, 1) == m[major] by {
          assert After(m, unrestricted, current, 0) == current;
        }
        AfterAfter(m, unrestricted, current, 1, k - 1);
        assert 1 + (k - 1) == k;
        OffersFollowTheChain(m, unrestricted, m[major], major, k - 1);
      }
    } else if k == 1 {
      assert After(m, unrestricted, current, 0) == current;
    }
  }

  /** Nothing else is offered to the unrestricted version exactly if its major is not mapped,
      or it is the last version of its major and the next major is not mapped. */
  lemma FixedExactly(m: UpgradeMap, unrestricted: Version)
    requires OwnMajors(m)
    ensures VersionHassos(Some(m), Some(unrestricted), Some(unrestricted)) == Some(unrestricted)
            <==> var major := unrestricted.major;
                 major.Some? && major.value in m ==> m[major.value] == unrestricted && major.value + 1 !in m
  {
  }

  lemma {:induction false} StaysFixed(m: UpgradeMap, unrestricted: Version, k: nat)
    requires VersionHassos(Some(m), Some(unrestricted), Some(unrestricted)) == Some(unrestricted)
    ensures After(m, unrestricted, unrestricted, k) == unrestricted
  {
    if k > 0 {
      StaysFixed(m, unrestricted, k - 1);
    }
  }

  lemma {:induction false} AfterAfter(m: UpgradeMap, unrestricted: Version, current: Version, j: nat, k: nat)
    ensures After(m, unrestricted, current, j + k) == After(m, unrestricted, After(m, unrestricted, current, j), k)
  {
    if k > 0 {
      AfterAfter(m, unrestricted, current, j, k - 1);
      assert j + k - 1 == j + (k - 1);
    }
  }

  /** The mapped majors follow each other, and the unrestricted version is above them. */
  ghost predicate Contiguous(m: UpgradeMap) {
    forall i, j, k :: i in m && k in m && i <= j <= k ==> j in m
  }

  ghost predicate Above(m: UpgradeMap, unrestricted: Version) {
    unrestricted.major.Some? ==> forall k :: k in m ==> k < unrestricted.major.value
  }

  lemma {:induction false} ContiguousChain(m: UpgradeMap, major: nat)
    requires Contiguous(m) && (major in m || From(m, major) == {})
    ensures Chain(m, major) == |From(m, major)|
    decreases |From(m, major)|
  {
    if major in m {
      FromShrinks(m, major);
      if From(m, major + 1) != {} {
        var k :| k in From(m, major + 1);
        assert major + 1 in m;
      }
      ContiguousChain(m, major + 1);
    }
  }

  /** Once reached, a fixed unrestricted version stays. */
  lemma ReachedForGood(m: UpgradeMap, unrestricted: Version, current: Version, major: nat, k: nat)
    requires OwnMajors(m) && m != map[] && current.major == Some(major)
    requires VersionHassos(Some(m), Some(unrestricted), Some(unrestricted)) == Some(unrestricted)
    ensures Steps(m, current, major) <= k ==> After(m, unrestricted, current, k) == unrestricted
  {
    var steps := Steps(m, current, major);
    UpgradePath(m, unrestricted, current, major, steps);
    if steps <= k {
      AfterAfter(m, unrestricted, current, steps, k - steps);
      StaysFixed(m, unrestricted, k - steps);
      assert steps + (k - steps) == k;
    }
  }

  /** With contiguous majors below the unrestricted version, it is reached after one
      installation for each mapped major from the current one on, one more at most, and then
      it stays. */
  lemma UnrestrictedIsReached(m: UpgradeMap, unrestricted: Version, current: Version, major: nat, k: nat)
    requires OwnMajors(m) && m != map[] && current.major == Some(major)
    requires Contiguous(m) && Above(m, unrestricted)
    ensures |From(m, major)| + 1 <= k ==> After(m, unrestricted, current, k) == unrestricted
    ensures major in m ==> Steps(m, current, major) == |From(m, major)| + if current == m[major] then 0 else 1
  {
    if major in m {
      ContiguousChain(m, major);
    }
    FixedExactly(m, unrestricted);
    hide After, Chain;
    ReachedForGood(m, unrestricted, current, major, k);
  }

  /** If the unrestricted version lies in a mapped major and is not its last, the offers run in
      circles: the unrestricted version leads back to the map. */
  lemma OffersCanCircle(m: UpgradeMap, unrestricted: Version, major: nat, k: nat)
    requires OwnMajors(m) && unrestricted.major == Some(major) && major in m && unrestricted != m[major]
    ensures After(m, unrestricted, unrestricted, Chain(m, major) + 1) == unrestricted
    ensures After(m, unrestricted, unrestricted, 1) == m[major]
  {
    UpgradePath(m, unrestricted, unrestricted, major, Chain(m, major) + 1);
    assert After(m, unrestricted, unrestricted, 0) == unrestricted;
  }
}
