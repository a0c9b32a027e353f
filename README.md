# product-id DNF plugin: reconciliation decisions

A Dafny model of the decision logic of subscription-manager's `product-id`
DNF plugin. After every package transaction the plugin works out which
repositories are *enabled* and yield a product-id certificate, and which are
*active* (the origin of at least one installed package). It then asks the
certificate store to match them, always with `force` set.

Modules:

- `Snapshot` (`snapshot.dfy`): the data the plugin reads from a freshly
  filled DNF base. It holds the enabled repositories in iteration order, the
  installed packages grouped by `(name, arch)`, and the available packages.
  Each enabled repository carries a `FetchOutcome`: how downloading and
  parsing its `productid` file ends this run (`NoFile`, `NoCert`,
  `GotCert(cert)`, `Raised`).
- `ActiveRepos` (`active_repos.dfy`): `ActiveRepoIds` is the join written as
  a set comprehension. Also here: the by-name available query and the lemmas
  about the join.
- `EnabledRepos` (`enabled_repos.dfy`): `Associations`, `MetaDataErrorIds`
  and `SkippedIds` specify what the walk over the enabled repositories yields.
  The lemmas cover partition, order, failure isolation, each outcome's route,
  and at most one certificate per repository.
- `ProductManager` (`product_manager.dfy`): class `DnfProductManager`. The
  field `metaDataErrors` is the mutable error list. `GetEnabled` and
  `GetActive` are the two loops, proved against the functions above.
  `UpdateAll` chains them into one recorded `Update` call.
- `ProductIdPlugin` (`plugin.dfy`): the `transaction` hook with its early
  returns.

## Model

| member | source | states |
|---|---|---|
| `ProductManager.DnfProductManager.GetActive` | src/dnf-plugins/product-id.py:120-144 | the result is exactly the set of `repoid`s of available packages whose `(name, arch)` is an installed key; no installed packages gives the empty set |
| `ActiveRepos.ActiveRepoIdsSnoc` | src/dnf-plugins/product-id.py:140-142 | one more available package adds its repo id exactly when its `(name, arch)` is installed |
| `ActiveRepos.ContributionOfOnePackage` | src/dnf-plugins/product-id.py:139-144 | at any position, a package adds its repo id to the active set if and only if its `(name, arch)` is installed |
| `ActiveRepos.ArchMismatchContributesNothing` | src/dnf-plugins/product-id.py:141-142 | a package whose `(name, arch)` is not installed changes nothing, even when its name is installed at another arch |
| `ActiveRepos.FilterByName` | src/dnf-plugins/product-id.py:136-137 | the available query restricted to names keeps exactly the available packages whose name is in the list |
| `ActiveRepos.FilterByNameKeepsActive` | src/dnf-plugins/product-id.py:136-142 | restricting the available packages to installed names loses no active repository |
| `ActiveRepos.ActiveRepoIdsOrderFree` | src/dnf-plugins/product-id.py:139-144 | the active set does not depend on the order in which the sack yields packages |
| `ProductManager.DnfProductManager.GetEnabled` | src/dnf-plugins/product-id.py:89-116 | the result is the `(cert, repo id)` pairs of repositories that parsed to a certificate, in iteration order; `metaDataErrors` is extended by the ids of repositories with no file or an exception, in order, and earlier entries are kept |
| `EnabledRepos.Associations` | src/dnf-plugins/product-id.py:95-103 | the walk yields no more pairs than there are enabled repositories |
| `EnabledRepos.MetaDataErrorIds` | src/dnf-plugins/product-id.py:95-111 | the walk records no more errors than there are enabled repositories |
| `EnabledRepos.SkippedIds` | src/dnf-plugins/product-id.py:100-102 | no more silent skips than there are enabled repositories |
| `EnabledRepos.AssociationsAppend` | src/dnf-plugins/product-id.py:95-103 | pairs of a concatenation are the pairs of the first part followed by those of the second: iteration order is kept |
| `EnabledRepos.MetaDataErrorIdsAppend` | src/dnf-plugins/product-id.py:104-111 | errors are recorded in iteration order |
| `EnabledRepos.AssociatedIdsAppend` | src/dnf-plugins/product-id.py:103 | the repo ids of concatenated pair lists concatenate |
| `EnabledRepos.AssociationsExact` | src/dnf-plugins/product-id.py:98-103 | a pair `(cert, id)` is produced if and only if an enabled repository `id` parsed to `cert` |
| `EnabledRepos.MetaDataErrorIdsExact` | src/dnf-plugins/product-id.py:98-111 | an id is a metadata error if and only if a repository with that id had no productid file or raised |
| `EnabledRepos.WalkPartitionsRepos` | src/dnf-plugins/product-id.py:95-111 | the pair ids, the error ids and the skipped ids together are the enabled ids, as multisets: each repository takes exactly one route |
| `EnabledRepos.WalkStep` | src/dnf-plugins/product-id.py:95-111 | handling one more repository extends the pairs and the errors by that repository's contribution only |
| `EnabledRepos.Splice` | src/dnf-plugins/product-id.py:95-111 | one repository's contribution sits between those of the repositories before and after it |
| `EnabledRepos.FailureIsolation` | src/dnf-plugins/product-id.py:95-111 | an exception on one repository adds its id to the errors and leaves the pairs and errors of all other repositories unchanged |
| `EnabledRepos.MissingFileIsError` | src/dnf-plugins/product-id.py:98-99 | a repository without a productid file goes to the errors and not to the pairs |
| `EnabledRepos.UnparsableIsSkipped` | src/dnf-plugins/product-id.py:100-102 | a repository whose file parses to nothing goes to neither list |
| `EnabledRepos.CertificateIsAssociated` | src/dnf-plugins/product-id.py:100-103 | a repository whose file parses to a certificate adds exactly one pair, at its place in iteration order, and no error |
| `EnabledRepos.AtMostOneAssociationPerRepo` | src/dnf-plugins/product-id.py:95-103 | with distinct enabled repo ids, the pairs carry distinct repo ids |
| `ProductManager.DnfProductManager.constructor` | src/dnf-plugins/product-id.py:73-75 | a new manager is over the given base, with no metadata errors and no update requested |
| `ProductManager.DnfProductManager.Update` | src/dnf-plugins/product-id.py:78-80 | the store update is recorded with exactly the arguments it was called with |
| `ProductManager.DnfProductManager.UpdateAll` | src/dnf-plugins/product-id.py:77-80 | exactly one update is requested, with the enabled walk's pairs, the active set, and force set to true |
| `ProductIdPlugin.Transaction` | src/dnf-plugins/product-id.py:39-66 | an empty transaction returns before any work, and only an empty one does; a failed dependency-injection import or a failed base ends the run with no update; otherwise exactly one forced update with the enabled pairs and active set of the fresh base |

## Left out

- Downloading the productid file with librepo (`_download_productid`) and
  the temporary directory around it. These are network and filesystem I/O.
  Each enabled repository instead carries the outcome the download and parse
  would have this run.
- `_get_cert` and `ProductManager.update` live in
  `subscription_manager.productid`, which is not part of this model. The
  certificate type is a type parameter. `Update` only records its arguments
  and does not model the store, so the store-level properties are not stated
  here: idempotence, force rewriting unchanged certificates, and removal of
  inactive repositories. The return value of `update_all` is also dropped.
- `ProductManager.__init__` is not part of this model. The constructor
  assumes it starts `meta_data_errors` empty.
- `DnfProductManager.GetActive`: the `fill_sack()` refresh at the start of
  `get_active` is taken to leave the snapshot unchanged, so the installed and
  available packages are those of the base the manager was built over. A
  failure of that refresh is not modelled.
- The `_na_dict` / `na_dict` switch between DNF versions. The model has one
  installed map from `(name, arch)` to the installed packages.
- Logging (the warning and exception per failed repository, the debug line
  listing the metadata errors, the final info line) and logger setup.
- In `transaction`: `logutil.init_logger_for_yum()` and `chroot` run
  outside the try block. Their failure is not modelled.
- In `transaction`: `init_dep_injection` catches only `ImportError`.
  `injectionImports == false` models that caught case. Any other exception
  it raises leaves the hook, and that is not modelled.
- In `transaction`: only failures of `Base()`, `read_all_repos` and
  `fill_sack` inside the try block are modelled, as `freshBase == None`.
  Failures inside `update_all` (such as a store error) and in the final
  `logger.info` are swallowed by the same try block but are not modelled.
- The order of packages in the by-name available query is taken to be the
  sack's order. `ActiveRepoIdsOrderFree` shows that the result does not
  depend on it.
