/**
 The classification of enabled repositories by the outcome of their
 productid fetch: a certificate association, a metadata error, or a silent
 skip. The functions here specify what one walk over the enabled
 repositories produces; the walk itself is DnfProductManager.GetEnabled.
 */
module EnabledRepos {
  import opened Snapshot

  /** What one repository adds to the result list. */
  function AssociationOf<C>(repo: EnabledRepo<C>): seq<(C, RepoId)>
  {
    if repo.outcome.GotCert? then [(repo.outcome.cert, repo.id)] else []
  }

  /** What one repository adds to the metadata errors: a missing file or an exception. */
  function ErrorOf<C>(repo: EnabledRepo<C>): seq<RepoId>
  {
    if repo.outcome.NoFile? || repo.outcome.Raised? then [repo.id] else []
  }

  /** What one repository contributes to neither list: a file that parsed to nothing. */
  function SkipOf<C>(repo: EnabledRepo<C>): seq<RepoId>
  {
    if repo.outcome.NoCert? then [repo.id] else []
  }

  /** The (certificate, repo id) pairs of a walk over `repos`, in walk order. */
  function Associations<C>(repos: seq<EnabledRepo<C>>): (r: seq<(C, RepoId)>)
    ensures |r| <= |repos|
  {
    if repos == [] then [] else AssociationOf(repos[0]) + Associations(repos[1..])
  }

  /** The repo ids a walk over `repos` records as metadata errors, in walk order. */
  function MetaDataErrorIds<C>(repos: seq<EnabledRepo<C>>): (r: seq<RepoId>)
    ensures |r| <= |repos|
  {
    if repos == [] then [] else ErrorOf(repos[0]) + MetaDataErrorIds(repos[1..])
  }

  /** The repo ids a walk over `repos` passes over silently. */
  function SkippedIds<C>(repos: seq<EnabledRepo<C>>): (r: seq<RepoId>)
    ensures |r| <= |repos|
  {
    if repos == [] then [] else SkipOf(repos[0]) + SkippedIds(repos[1..])
  }

  /** The ids of the enabled repositories, in iteration order. */
  function Ids<C>(repos: seq<EnabledRepo<C>>): (r: seq<RepoId>)
    ensures |r| == |repos|
    ensures forall i :: 0 <= i < |repos| ==> r[i] == repos[i].id
  {
    if repos == [] then [] else [repos[0].id] + Ids(repos[1..])
  }

  /** The repo ids of a list of (certificate, repo id) pairs, in order. */
  function AssociatedIds<C>(assocs: seq<(C, RepoId)>): (r: seq<RepoId>)
    ensures |r| == |assocs|
    ensures forall i :: 0 <= i < |assocs| ==> r[i] == assocs[i].1
  {
    if assocs == [] then [] else [assocs[0].1] + AssociatedIds(assocs[1..])
  }

  /** No element occurs twice. */
  predicate NoDuplicates<T(==)>(s: seq<T>)
  {
    forall i, j :: 0 <= i < j < |s| ==> s[i] != s[j]
  }

  /**
   The walk is compositional: the pairs from a concatenation of repository
   lists are those of the first list followed by those of the second, so
   pairs keep the order in which the repositories were iterated.
   */
  lemma {:induction false} AssociationsAppend<C>(a: seq<EnabledRepo<C>>, b: seq<EnabledRepo<C>>)
    ensures Associations(a + b) == Associations(a) + Associations(b)
  {
    if a == [] {
      assert a + b == b;
    } else {
      assert (a + b)[1..] == a[1..] + b;
      AssociationsAppend(a[1..], b);
    }
  }

  /** Likewise, metadata errors are recorded in iteration order. */
  lemma {:induction false} MetaDataErrorIdsAppend<C>(a: seq<EnabledRepo<C>>, b: seq<EnabledRepo<C>>)
    ensures MetaDataErrorIds(a + b) == MetaDataErrorIds(a) + MetaDataErrorIds(b)
  {
    if a == [] {
      assert a + b == b;
    } else {
      assert (a + b)[1..] == a[1..] + b;
      MetaDataErrorIdsAppend(a[1..], b);
    }
  }

  /**
   A pair (cert, id) is produced exactly when some enabled repository with
   that id parsed its productid to that certificate.
   */
  lemma {:induction false} AssociationsExact<C>(repos: seq<EnabledRepo<C>>, cert: C, id: RepoId)
    ensures (cert, id) in Associations(repos) <==> EnabledRepo(id, GotCert(cert)) in repos
  {
    if repos != [] {
      AssociationsExact(repos[1..], cert, id);
      assert repos == [repos[0]] + repos[1..];
    }
  }

  /**
   An id is recorded as a metadata error exactly when a repository with
   that id had no productid file or raised an exception.
   */
  lemma {:induction false} MetaDataErrorIdsExact<C>(repos: seq<EnabledRepo<C>>, id: RepoId)
    ensures id in MetaDataErrorIds(repos)
        <==> exists i :: 0 <= i < |repos| && repos[i].id == id
                         && (repos[i].outcome.NoFile? || repos[i].outcome.Raised?)
  {
    if repos != [] {
      MetaDataErrorIdsExact(repos[1..], id);
      if id in MetaDataErrorIds(repos[1..]) {
        var i :| 0 <= i < |repos[1..]| && repos[1..][i].id == id
                 && (repos[1..][i].outcome.NoFile? || repos[1..][i].outcome.Raised?);
        assert repos[i + 1] == repos[1..][i];
      }
      if exists i :: 0 <= i < |repos| && repos[i].id == id
                     && (repos[i].outcome.NoFile? || repos[i].outcome.Raised?) {
        var i :| 0 <= i < |repos| && repos[i].id == id
                 && (repos[i].outcome.NoFile? || repos[i].outcome.Raised?);
        if i > 0 {
          assert repos[1..][i - 1] == repos[i];
        }
      }
    }
  }

  /**
   Every enabled repository lands in exactly one of the three outcomes:
   the ids of the pairs, the metadata errors and the skipped ids together
   are the enabled ids, each exactly as often as it is enabled.
   */
  lemma {:induction false} WalkPartitionsRepos<C>(repos: seq<EnabledRepo<C>>)
    ensures multiset(AssociatedIds(Associations(repos))) + multiset(MetaDataErrorIds(repos))
          + multiset(SkippedIds(repos)) == multiset(Ids(repos))
  {
    if repos != [] {
      WalkPartitionsRepos(repos[1..]);
      AssociatedIdsAppend(AssociationOf(repos[0]), Associations(repos[1..]));
    }
  }

  /** The repo ids of concatenated pair lists are the concatenated repo ids. */
  lemma {:induction false} AssociatedIdsAppend<C>(a: seq<(C, RepoId)>, b: seq<(C, RepoId)>)
    ensures AssociatedIds(a + b) == AssociatedIds(a) + AssociatedIds(b)
  {
  }

  /** Handling one more repository extends both lists by that repository's contribution. */
  lemma WalkStep<C>(walked: seq<EnabledRepo<C>>, repo: EnabledRepo<C>)
    ensures Associations(walked + [repo]) == Associations(walked) + AssociationOf(repo)
    ensures MetaDataErrorIds(walked + [repo]) == MetaDataErrorIds(walked) + ErrorOf(repo)
  {
    AssociationsAppend(walked, [repo]);
    assert Associations([repo]) == AssociationOf(repo) + Associations([repo][1..]);
    MetaDataErrorIdsAppend(walked, [repo]);
    assert MetaDataErrorIds([repo]) == ErrorOf(repo) + MetaDataErrorIds([repo][1..]);
  }

  /** One repository's contribution, wherever it sits in the iteration order. */
  lemma Splice<C>(before: seq<EnabledRepo<C>>, repo: EnabledRepo<C>, after: seq<EnabledRepo<C>>)
    ensures Associations(before + [repo] + after)
         == Associations(before) + AssociationOf(repo) + Associations(after)
    ensures MetaDataErrorIds(before + [repo] + after)
         == MetaDataErrorIds(before) + ErrorOf(repo) + MetaDataErrorIds(after)
  {
    AssociationsAppend(before + [repo], after);
    MetaDataErrorIdsAppend(before + [repo], after);
    WalkStep(before, repo);
  }

  /**
   An exception while handling one repository changes nothing about the
   others: the pairs and errors are those of the repositories before it,
   then its id as an error, then those of the repositories after it.
   */
  lemma FailureIsolation<C>(before: seq<EnabledRepo<C>>, id: RepoId, after: seq<EnabledRepo<C>>)
    ensures Associations(before + [EnabledRepo(id, Raised)] + after)
         == Associations(before) + Associations(after)
    ensures MetaDataErrorIds(before + [EnabledRepo(id, Raised)] + after)
         == MetaDataErrorIds(before) + [id] + MetaDataErrorIds(after)
  {
    Splice(before, EnabledRepo(id, Raised), after);
  }

  /**
   A repository with no productid file is recorded as a metadata error and
   contributes no pair.
   */
  lemma MissingFileIsError<C>(before: seq<EnabledRepo<C>>, id: RepoId, after: seq<EnabledRepo<C>>)
    ensures Associations(before + [EnabledRepo(id, NoFile)] + after)
         == Associations(before) + Associations(after)
    ensures MetaDataErrorIds(before + [EnabledRepo(id, NoFile)] + after)
         == MetaDataErrorIds(before) + [id] + MetaDataErrorIds(after)
  {
    Splice(before, EnabledRepo(id, NoFile), after);
  }

  /**
   A repository whose file parses to nothing is skipped silently: it
   contributes to neither the pairs nor the metadata errors.
   */
  lemma UnparsableIsSkipped<C>(before: seq<EnabledRepo<C>>, id: RepoId, after: seq<EnabledRepo<C>>)
    ensures Associations(before + [EnabledRepo(id, NoCert)] + after)
         == Associations(before) + Associations(after)
    ensures MetaDataErrorIds(before + [EnabledRepo(id, NoCert)] + after)
         == MetaDataErrorIds(before) + MetaDataErrorIds(after)
  {
    Splice(before, EnabledRepo(id, NoCert), after);
  }

  /**
   A repository whose file parses to a certificate contributes exactly one
   pair, at its place in the iteration order, and no metadata error.
   */
  lemma CertificateIsAssociated<C>(before: seq<EnabledRepo<C>>, id: RepoId, cert: C, after: seq<EnabledRepo<C>>)
    ensures Associations(before + [EnabledRepo(id, GotCert(cert))] + after)
         == Associations(before) + [(cert, id)] + Associations(after)
    ensures MetaDataErrorIds(before + [EnabledRepo(id, GotCert(cert))] + after)
         == MetaDataErrorIds(before) + MetaDataErrorIds(after)
  {
    Splice(before, EnabledRepo(id, GotCert(cert)), after);
  }

  /**
   When the enabled repository ids are distinct, so are the repository ids
   of the pairs: at most one certificate per repository.
   */
  lemma {:induction false} AtMostOneAssociationPerRepo<C>(repos: seq<EnabledRepo<C>>)
    requires NoDuplicates(Ids(repos))
    ensures NoDuplicates(AssociatedIds(Associations(repos)))
  {
    if repos != [] {
      assert Ids(repos[1..]) == Ids(repos)[1..];
      AtMostOneAssociationPerRepo(repos[1..]);
      var rest := AssociatedIds(Associations(repos[1..]));
      AssociatedIdsAppend(AssociationOf(repos[0]), Associations(repos[1..]));
      WalkPartitionsRepos(repos[1..]);
      assert repos[0].id !in Ids(repos[1..]);
      assert repos[0].id !in multiset(Ids(repos[1..]));
      assert repos[0].id !in rest;
    }
  }
}
