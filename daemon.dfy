/** The daemon's coordination state (internal/daemon/daemon.go): which adapter
    provider it asks, which adapter it has chosen, and how Run turns the end of
    its context into a result. */
module Daemon {
  import opened Wrappers
  import opened Errors
  import opened Host
  import opened Adapters
  import opened Sysfs

  const ProviderMissing := Fault("adapter provider not configured")
  const NoAdaptersDiscovered := Fault("no adapters discovered")
  const NilRunContext := Fault("nil context passed to Run")

  /** An AdapterProvider: the sysfs provider, or an AdapterProviderFunc whose answer
      does not depend on the context. */
  datatype Provider =
    | SysfsSource(sysfs: SysfsAdapterProvider)
    | FuncSource(listed: Result<seq<Adapter>, Error>)

  /** provider.ListAdapters(ctx) for a non-nil context. */
  function ListFrom(prov: Provider, ctx: Context, h: Host): Result<seq<Adapter>, Error>
  {
    match prov
    case SysfsSource(p) => Listing(p, Some(ctx), h)
    case FuncSource(listed) => listed
  }

  /** daemon.Options, without the logger. */
  datatype Options = Options(
    preferredAdapter: string,
    adapterProvider: Option<Provider>,
    configSource: string,
    configLoaded: bool)

  /** What refreshAdapters decides: the adapter to make active, or the error it returns. */
  function Refresh(prov: Option<Provider>, preferred: string, ctx: Context, h: Host): Result<Adapter, Error>
  {
    if prov.None? then Failure(ProviderMissing)
    else match ListFrom(prov.value, ctx, h)
      case Failure(e) => Failure(Wrapped("list adapters", e))
      case Success(adapters) =>
        if |adapters| == 0 then Failure(NoAdaptersDiscovered)
        else SelectAdapter(preferred, adapters)
  }

  /** A successful refresh chooses SelectAdapter's answer over the listed adapters,
      and that answer is one of them. */
  lemma RefreshChoosesSelection(prov: Provider, preferred: string, ctx: Context, h: Host)
    requires ListFrom(prov, ctx, h).Success? && ListFrom(prov, ctx, h).value != []
    ensures var listed := ListFrom(prov, ctx, h).value;
      && Refresh(Some(prov), preferred, ctx, h) == SelectAdapter(preferred, listed)
      && Refresh(Some(prov), preferred, ctx, h).Success?
      && Refresh(Some(prov), preferred, ctx, h).value in listed
  {
  }

  /** Refresh fails exactly when the provider is missing, the listing fails, or it is
      empty; a listing error is wrapped so that errors.Is still finds its cause. */
  lemma RefreshErrors(prov: Option<Provider>, preferred: string, ctx: Context, h: Host, target: Error)
    ensures Refresh(prov, preferred, ctx, h).Failure? <==>
      prov.None? || ListFrom(prov.value, ctx, h).Failure? || ListFrom(prov.value, ctx, h).value == []
    ensures prov.Some? && ListFrom(prov.value, ctx, h).Failure? && Is(ListFrom(prov.value, ctx, h).error, target) ==>
      Is(Refresh(prov, preferred, ctx, h).error, target)
    ensures prov.Some? && ListFrom(prov.value, ctx, h) == Success([]) ==>
      Refresh(prov, preferred, ctx, h) == Failure(NoAdaptersDiscovered)
  {
  }

  /** How Run ends: it returns (with an error or nil), or it never returns because its
      context is never done. */
  datatype RunExit = Returned(err: Option<Error>) | Blocked

  /** What Run returns, given the provider and preference it was built with. */
  function RunResult(prov: Option<Provider>, preferred: string, ctx: Option<Context>, h: Host): RunExit
  {
    if ctx.None? then Returned(Some(NilRunContext))
    else if prov.Some? && Refresh(prov, preferred, ctx.value, h).Failure? then
      Returned(Some(Refresh(prov, preferred, ctx.value, h).error))
    else if ctx.value.doneAfter.None? then Blocked
    else if !Is(Cause(ctx.value), Canceled) then Returned(Some(Cause(ctx.value)))
    else Returned(None)
  }

  /** A nil context is an error, whatever the provider. */
  lemma RunNilContext(prov: Option<Provider>, preferred: string, h: Host)
    ensures RunResult(prov, preferred, None, h).Returned?
    ensures RunResult(prov, preferred, None, h).err.Some?
  {
  }

  /** A refresh error is what Run returns, before it waits on the context. */
  lemma RunReturnsRefreshError(prov: Provider, preferred: string, ctx: Context, h: Host)
    requires Refresh(Some(prov), preferred, ctx, h).Failure?
    ensures RunResult(Some(prov), preferred, Some(ctx), h) == Returned(Some(Refresh(Some(prov), preferred, ctx, h).error))
  {
  }

  /** After a successful refresh Run waits for the context: it never returns while the
      context stays live, returns nil when the cause is (or wraps) context.Canceled, and
      returns the cause itself otherwise. */
  lemma RunMapsCause(prov: Option<Provider>, preferred: string, ctx: Context, h: Host)
    requires prov.None? || Refresh(prov, preferred, ctx, h).Success?
    ensures ctx.doneAfter.None? <==> RunResult(prov, preferred, Some(ctx), h) == Blocked
    ensures ctx.doneAfter.Some? && Is(Cause(ctx), Canceled) ==> RunResult(prov, preferred, Some(ctx), h) == Returned(None)
    ensures ctx.doneAfter.Some? && !Is(Cause(ctx), Canceled) ==> RunResult(prov, preferred, Some(ctx), h) == Returned(Some(Cause(ctx)))
  {
  }

  /** A context cancelled with context.WithCancel ends Run with nil; one cancelled with
      a cause of its own ends Run with exactly that cause. */
  lemma RunCancellationScenarios(prov: Provider, preferred: string, h: Host, boom: string)
    requires Refresh(Some(prov), preferred, Context(Some(0), Canceled, None), h).Success?
    requires Refresh(Some(prov), preferred, Context(Some(0), Canceled, Some(Fault(boom))), h).Success?
    ensures RunResult(Some(prov), preferred, Some(Context(Some(0), Canceled, None)), h) == Returned(None)
    ensures RunResult(Some(prov), preferred, Some(Context(Some(0), Canceled, Some(Fault(boom)))), h) == Returned(Some(Fault(boom)))
  {
  }

  class Daemon {
    var preferredAdapter: string
    var configSource: string
    var configLoaded: bool
    var adapterProv: Option<Provider>
    var activeAdapter: Option<Adapter>

    /** daemon.New: never fails; without a provider it uses the default sysfs one. */
    constructor New(opts: Options)
      ensures preferredAdapter == opts.preferredAdapter
      ensures configSource == opts.configSource && configLoaded == opts.configLoaded
      ensures opts.adapterProvider.Some? ==> adapterProv == opts.adapterProvider
      ensures opts.adapterProvider.None? ==> adapterProv == Some(SysfsSource(DefaultAdapterProvider()))
      ensures activeAdapter.None?
    {
      var provider := opts.adapterProvider;
      if provider.None? {
        provider := Some(SysfsSource(DefaultAdapterProvider()));
      }
      preferredAdapter := opts.preferredAdapter;
      configSource := opts.configSource;
      configLoaded := opts.configLoaded;
      adapterProv := provider;
      activeAdapter := None;
    }

    /** ActiveAdapter: a copy of the chosen adapter, or the zero adapter and false. */
    method ActiveAdapter() returns (adapter: Adapter, ok: bool)
      ensures ok <==> activeAdapter.Some?
      ensures ok ==> adapter == activeAdapter.value
      ensures !ok ==> adapter == ZeroAdapter
    {
      if activeAdapter.None? {
        return ZeroAdapter, false;
      }
      adapter := activeAdapter.value;
      return adapter, true;
    }

    /** refreshAdapters: on success the active adapter is SelectAdapter's choice; on
        failure it is left as it was. */
    method RefreshAdapters(ctx: Context, h: Host) returns (err: Option<Error>)
      modifies this`activeAdapter
      ensures err.None? <==> Refresh(adapterProv, preferredAdapter, ctx, h).Success?
      ensures err.Some? ==> err.value == Refresh(adapterProv, preferredAdapter, ctx, h).error
      ensures err.Some? ==> activeAdapter == old(activeAdapter)
      ensures err.None? ==> activeAdapter == Some(Refresh(adapterProv, preferredAdapter, ctx, h).value)
    {
      if adapterProv.None? {
        return Some(ProviderMissing);
      }
      var adapters: seq<Adapter>;
      match adapterProv.value {
        case SysfsSource(p) =>
          var found, listErr := ListAdapters(p, Some(ctx), h);
          if listErr.Some? {
            return Some(Wrapped("list adapters", listErr.value));
          }
          adapters := found;
        case FuncSource(listed) =>
          if listed.Failure? {
            return Some(Wrapped("list adapters", listed.error));
          }
          adapters := listed.value;
      }
      if |adapters| == 0 {
        return Some(NoAdaptersDiscovered);
      }
      // SelectAdapter fails only on an empty list, which was refused above.
      var chosen := SelectAdapter(preferredAdapter, adapters).value;
      activeAdapter := Some(Adapter(chosen.id, chosen.address, chosen.alias, chosen.powered, chosen.transport));
      return None;
    }

    /** Run: refuses a nil context, refreshes the adapters, waits for the context and
        maps its cause to the result. `Blocked` stands for waiting forever. */
    method Run(ctx: Option<Context>, h: Host) returns (exit: RunExit)
      modifies this`activeAdapter
      ensures exit == RunResult(adapterProv, preferredAdapter, ctx, h)
      ensures ctx.Some? && adapterProv.Some? && Refresh(adapterProv, preferredAdapter, ctx.value, h).Success? ==>
        activeAdapter == Some(Refresh(adapterProv, preferredAdapter, ctx.value, h).value)
      ensures ctx.None? || adapterProv.None? || Refresh(adapterProv, preferredAdapter, ctx.value, h).Failure? ==>
        activeAdapter == old(activeAdapter)
    {
      if ctx.None? {
        return Returned(Some(NilRunContext));
      }
      if adapterProv.Some? {
        var err := RefreshAdapters(ctx.value, h);
        if err.Some? {
          return Returned(err);
        }
      }
      if ctx.value.doneAfter.None? {
        return Blocked;
      }
      var cause := Cause(ctx.value);
      if !Is(cause, Canceled) {
        return Returned(Some(cause));
      }
      return Returned(None);
    }
  }

  /** Before any refresh there is no active adapter, and ActiveAdapter reports the zero
      adapter; after a successful refresh it reports the chosen one. */
  method ActiveAdapterLifecycle(opts: Options, ctx: Context, h: Host) returns (before: bool, after: Adapter, ok: bool)
    ensures !before
    ensures var prov := if opts.adapterProvider.Some? then opts.adapterProvider else Some(SysfsSource(DefaultAdapterProvider()));
      Refresh(prov, opts.preferredAdapter, ctx, h).Success? ==>
        ok && after == Refresh(prov, opts.preferredAdapter, ctx, h).value
    ensures var prov := if opts.adapterProvider.Some? then opts.adapterProvider else Some(SysfsSource(DefaultAdapterProvider()));
      Refresh(prov, opts.preferredAdapter, ctx, h).Failure? ==> !ok && after == ZeroAdapter
  {
    var d := new Daemon.New(opts);
    var zero;
    zero, before := d.ActiveAdapter();
    var err := d.RefreshAdapters(ctx, h);
    after, ok := d.ActiveAdapter();
  }
}
