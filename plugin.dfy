/**
 The DNF plugin hook that runs after every transaction and updates the
 installed product certificates.
 */
module ProductIdPlugin {
  import opened Snapshot
  import opened ActiveRepos
  import opened EnabledRepos
  import opened ProductManager

  /**
   What the host offers the hook: the number of items in the transaction
   just completed, whether dependency injection could be initialised (its
   import succeeded), and the freshly built and filled base, or None when
   building or filling it raised.
   */
  datatype HookContext<C> = HookContext(
    transactionSize: nat,
    injectionImports: bool,
    freshBase: Option<Base<C>>)

  /** How one run of the hook ended. */
  datatype HookResult<C> =
    | EmptyTransaction
    | InjectionFailed
    | BaseFailed
    | ProductsUpdated(call: UpdateCall<C>)

  /**
   The post-transaction hook: nothing happens after an empty transaction or
   when dependency injection cannot be initialised; otherwise a product
   manager over a fresh base requests exactly one, forced, store update
   from the enabled walk and the active set. Errors while building the
   fresh base are swallowed.
   */
  method Transaction<C>(hook: HookContext<C>) returns (result: HookResult<C>)
    ensures hook.transactionSize == 0 <==> result == EmptyTransaction
    ensures hook.transactionSize > 0 && !hook.injectionImports ==> result == InjectionFailed
    ensures hook.transactionSize > 0 && hook.injectionImports && hook.freshBase.None?
            ==> result == BaseFailed
    ensures hook.transactionSize > 0 && hook.injectionImports && hook.freshBase.Some?
            ==> result == ProductsUpdated(UpdateCall(
                  Associations(hook.freshBase.value.enabled),
                  ActiveRepoIds(hook.freshBase.value.installed.Keys, hook.freshBase.value.available),
                  true))
    ensures result.ProductsUpdated? ==> result.call.force
  {
    if hook.transactionSize == 0 {
      // nothing to update after an empty transaction
      return EmptyTransaction;
    }
    if !hook.injectionImports {
      return InjectionFailed;
    }
    match hook.freshBase {
      case None =>
        result := BaseFailed;
      case Some(base) =>
        var pm := new DnfProductManager(base);
        pm.UpdateAll();
        result := ProductsUpdated(pm.updateCalls[0]);
    }
  }
}
