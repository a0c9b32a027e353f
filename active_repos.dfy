/**
 The "active" repositories: those that are the origin of at least one
 installed package, found by joining the installed (name, arch) pairs with
 the available packages of every repository.
 */
module ActiveRepos {
  import opened Snapshot

  /** The names of the installed package families: the name filter of the available query. */
  function InstalledNames(installed: set<NameArch>): set<string>
  {
    set k | k in installed :: k.name
  }

  /**
   The available-package query restricted to the given names, keeping the
   order of the sack.
   */
  function FilterByName(available: seq<Package>, names: set<string>): (r: seq<Package>)
    ensures forall p :: p in r <==> p in available && p.name in names
  {
    if available == [] then []
    else
      var rest := FilterByName(available[1..], names);
      if available[0].name in names then [available[0]] + rest else rest
  }

  /**
   The specification of the join: the owning repository of every available
   package whose (name, arch) is an installed key.
   */
  function ActiveRepoIds(installed: set<NameArch>, available: seq<Package>): set<RepoId>
  {
    set p | p in available && NameArchOf(p) in installed :: p.repoid
  }

  /** Looking at one more available package adds its repository exactly when it matches. */
  lemma ActiveRepoIdsSnoc(installed: set<NameArch>, available: seq<Package>, p: Package)
    ensures ActiveRepoIds(installed, available + [p])
         == ActiveRepoIds(installed, available) + (if NameArchOf(p) in installed then {p.repoid} else {})
  {
  }

  /**
   One available package contributes its repository id when, and only when,
   its (name, arch) is installed; wherever it sits in the sack.
   */
  lemma ContributionOfOnePackage(installed: set<NameArch>, before: seq<Package>, p: Package, after: seq<Package>)
    ensures ActiveRepoIds(installed, before + [p] + after)
         == ActiveRepoIds(installed, before + after) + (if NameArchOf(p) in installed then {p.repoid} else {})
  {
  }

  /**
   A package carrying an installed name at an architecture that is not
   installed adds nothing: a match needs both the name and the arch.
   */
  lemma ArchMismatchContributesNothing(
    installed: set<NameArch>, before: seq<Package>, p: Package, after: seq<Package>)
    requires NameArch(p.name, p.arch) !in installed
    ensures ActiveRepoIds(installed, before + [p] + after) == ActiveRepoIds(installed, before + after)
  {
  }

  /**
   Restricting the available query to installed names, as the plugin does,
   loses no repository: every match already has an installed name.
   */
  lemma FilterByNameKeepsActive(installed: set<NameArch>, available: seq<Package>)
    ensures ActiveRepoIds(installed, FilterByName(available, InstalledNames(installed)))
         == ActiveRepoIds(installed, available)
  {
  }

  /** The order in which the sack yields available packages does not matter. */
  lemma ActiveRepoIdsOrderFree(installed: set<NameArch>, a: seq<Package>, b: seq<Package>)
    requires multiset(a) == multiset(b)
    ensures ActiveRepoIds(installed, a) == ActiveRepoIds(installed, b)
  {
    forall p ensures p in a <==> p in b {
      assert p in a <==> p in multiset(a);
      assert p in b <==> p in multiset(b);
    }
  }
}
