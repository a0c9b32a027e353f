/**
 The DNF product manager: walks the enabled repositories for productid
 certificates, computes the active repositories, and hands both to the
 certificate-store update.
 */
module ProductManager {
  import opened Snapshot
  import opened ActiveRepos
  import opened EnabledRepos

  /**
   One call of the inherited certificate-store update, as recorded: the
   (certificate, repo id) pairs, the active repo ids, and the force flag.
   */
  datatype UpdateCall<C> = UpdateCall(
    associations: seq<(C, RepoId)>,
    active: set<RepoId>,
    force: bool)

  class DnfProductManager<C> {
    /** The package-manager base the manager was created over. */
    const base: Base<C>
    /** Ids of the repositories whose productid metadata could not be loaded. */
    var metaDataErrors: seq<RepoId>
    /** The certificate-store updates requested so far, oldest first. */
    var updateCalls: seq<UpdateCall<C>>

    constructor (base: Base<C>)
      ensures this.base == base
      ensures metaDataErrors == [] && updateCalls == []
    {
      this.base := base;
      metaDataErrors := [];
      updateCalls := [];
    }

    /** The inherited store update, whose own behaviour is not part of this model. */
    method Update(associations: seq<(C, RepoId)>, active: set<RepoId>, force: bool)
      modifies this`updateCalls
      ensures updateCalls == old(updateCalls) + [UpdateCall(associations, active, force)]
    {
      updateCalls := updateCalls + [UpdateCall(associations, active, force)];
    }

    /**
     Walks the enabled repositories in order: a parsed certificate is
     appended to the result with its repo id, a missing file or an exception
     appends the repo id to metaDataErrors, and a file that parses to
     nothing is skipped.
     */
    method GetEnabled() returns (lst: seq<(C, RepoId)>)
      modifies this`metaDataErrors
      ensures lst == Associations(base.enabled)
      ensures metaDataErrors == old(metaDataErrors) + MetaDataErrorIds(base.enabled)
    {
      lst := [];
      var enabled := base.enabled;
      var i := 0;
      while i < |enabled|
        invariant 0 <= i <= |enabled|
        invariant lst == Associations(enabled[..i])
        invariant metaDataErrors == old(metaDataErrors) + MetaDataErrorIds(enabled[..i])
      {
        var repo := enabled[i];
        assert enabled[..i + 1] == enabled[..i] + [repo];
        WalkStep(enabled[..i], repo);
        match repo.outcome {
          case NoFile =>
            metaDataErrors := metaDataErrors + [repo.id];
          case NoCert =>
          case GotCert(cert) =>
            lst := lst + [(cert, repo.id)];
          case Raised =>
            metaDataErrors := metaDataErrors + [repo.id];
        }
        i := i + 1;
      }
      assert enabled[..i] == enabled;
    }

    /**
     The repositories that have packages installed: every available package
     with an installed name is looked at, and its repository is added when
     its (name, arch) is installed.
     */
    method GetActive() returns (active: set<RepoId>)
      ensures active == ActiveRepoIds(base.installed.Keys, base.available)
      ensures forall r :: r in active <==>
        exists p :: p in base.available && NameArchOf(p) in base.installed && p.repoid == r
      ensures |base.installed| == 0 ==> active == {}
    {
      var installedNa := base.installed;
      var availPkgs := FilterByName(base.available, InstalledNames(installedNa.Keys));
      active := {};
      var i := 0;
      while i < |availPkgs|
        invariant 0 <= i <= |availPkgs|
        invariant active == ActiveRepoIds(installedNa.Keys, availPkgs[..i])
      {
        var p := availPkgs[i];
        assert availPkgs[..i + 1] == availPkgs[..i] + [p];
        ActiveRepoIdsSnoc(installedNa.Keys, availPkgs[..i], p);
        if NameArch(p.name, p.arch) in installedNa {
          active := active + {p.repoid};
        }
        i := i + 1;
      }
      assert availPkgs[..i] == availPkgs;
      FilterByNameKeepsActive(installedNa.Keys, base.available);
    }

    /** Requests a store update from the enabled walk and the active set, always forced. */
    method UpdateAll()
      modifies this`metaDataErrors, this`updateCalls
      ensures metaDataErrors == old(metaDataErrors) + MetaDataErrorIds(base.enabled)
      ensures updateCalls == old(updateCalls) + [UpdateCall(
        Associations(base.enabled), ActiveRepoIds(base.installed.Keys, base.available), true)]
    {
      var enabled := GetEnabled();
      var active := GetActive();
      Update(enabled, active, true);
    }
  }
}
