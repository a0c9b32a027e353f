/**
 The state of the package manager that the product-id plugin reads after a
 transaction: the enabled repositories, the installed packages indexed by
 (name, arch), and the available packages of every repository.
 */
module Snapshot {

  /** A repository identifier; unique per configured repository. */
  type RepoId = string

  datatype Option<T> = None | Some(value: T)

  /** A package family: name and architecture, irrespective of version. */
  datatype NameArch = NameArch(name: string, arch: string)

  /** A package as the package sack reports it, with the repository it comes from. */
  datatype Package = Package(name: string, arch: string, repoid: RepoId)

  function NameArchOf(p: Package): NameArch
  {
    NameArch(p.name, p.arch)
  }

  /**
   How the fetch-and-parse of one enabled repository's productid file ended:
   the metadata listing had no productid file (or gave an empty path), the
   file came back but the certificate parser gave nothing, the file came
   back and parsed to a certificate, or an exception was raised on the way.
   */
  datatype FetchOutcome<C> = NoFile | NoCert | GotCert(cert: C) | Raised

  /** An enabled repository together with what fetching its productid yields this run. */
  datatype EnabledRepo<C> = EnabledRepo(id: RepoId, outcome: FetchOutcome<C>)

  /**
   A freshly filled package-manager base: the enabled repositories in the
   order the host iterates them, the installed packages grouped by
   (name, arch), and the available packages of all repositories.
   */
  datatype Base<C> = Base(
    enabled: seq<EnabledRepo<C>>,
    installed: map<NameArch, seq<Package>>,
    available: seq<Package>)
}
