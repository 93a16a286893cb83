# Pepelats, verified

A Dafny model of Pepelats, a small framework for async web services in Python, with proofs of what
the framework promises its users: that a host starts all or nothing and tears down in order
whatever its services do, that settings bind the same however their keys are spelt, that
observability providers are neither lost nor shut down twice, that a rewritten endpoint means the
same call, and that order and scope do not depend on accident.

`dafny verify dfyconfig.toml` checks everything.

| file | what it models |
|---|---|
| `HostLifecycle.dfy` | the start/stop protocol of host and background services as a transition system: control point of the host, one state per service, stop signal, grace budget, event trace |
| `LifecycleSafety.dfy` | the inductive invariants, and what they give for every run |
| `LifecycleRuns.dfy` | the grace period, the barrier, what services and host may do, and exactly when a host fails |
| `LifecycleIsolation.dfy` | crash isolation as non-interference |
| `LifecycleBound.dfy` | the bound on teardown, and freedom from deadlock |
| `HostedServices.dfy`, `BackgroundService.dfy` | the service registry, and the log bracket around one service |
| `SectionData.dfy`, `InsertionOrder.dfy`, `AsciiText.dfy` | section trees, Python's insertion-ordered dict, ASCII text |
| `SectionCoercion.dfy`, `CoercionProperties.dfy`, `AnnotationLaws.dfy` | schema-directed coercion of section data, its laws, and what each annotation means |
| `HostBootstrap.dfy` | single-field reads and the generated instance id |
| `Observability.dfy`, `ProviderLedger.dfy` | the process-global providers, and their ledger over any sequence of calls |
| `HostEpisodes.dfy` | build, lifecycle and providers put together: what any number of hosts does to the ledger |
| `RouteInjection.dfy`, `EndpointContract.dfy`, `EndpointOrder.dfy` | the endpoint rewriting, against PEP 362 |
| `HttpScopes.dfy` | one DI scope per connection |
| `StableSort.dfy`, `Pipeline.dfy` | `sorted`, and the middleware onion |
| `Wrappers.dfy`, `Counting.dfy` | optional values and results; how often things happened, and what behind what |
| `SettingsDiscovery.dfy` | the choice of settings files |

What the models rely on. Host and services share one event loop, so a run is an interleaving of
actions. A gathered barrier completes only when every task is done, cancelling a finished task does
nothing, and at the deadline every unfinished task is cancelled, which is where `wait_for` and the
loop behind it lead together. An APP-scoped `get` returns one instance per type. Whatever runs
while the host waits takes at least one tick of the grace budget, and a cancelled service ends
after finitely many steps of its own. The first middleware of a list is the outermost; the
framework calls endpoints with keyword arguments only.

Some promises hold under a condition only. The condition is proved exactly, for all inputs.

- `src/pepelats/hosting/web_host_builder.py:82-87` says that a failed build leaves no global
  providers running. `configure_observability` stands outside the `try`, so when it raises with
  a provider already in place (in the metrics, on an unknown log sink, behind the logs) what is
  there stays behind with `_configured` false. Shutdown then does nothing, and the next configure
  call that gets past tracing overwrites and loses it. Providers are conserved if and only if no
  configure call gets past tracing after one that raised past tracing
  (`ProviderLedger.ConservedExactlyWhen` over calls, `HostEpisodes.HostsConserveExactlyWhen` over
  hosts, with an example in `ProviderLedger.RetryAfterUnknownSinkLoses`).
- The generated instance id is bound if and only if the `[service]` section has no differently
  cased spelling behind an `instance_id` key (`HostBootstrap.GeneratedIdWinsExactlyWhen`, with an
  example in `HostBootstrap.ShadowedInstanceId`).
- `read_section_field` takes the first matching key where coercion keeps the last, so they agree
  for all values if and only if at most one key folds to the field, and the field owns its fold
  (`HostBootstrap.ReaderAgreesExactlyWhen`, with an example in `HostBootstrap.BothCasingsDisagree`).
- A connection sees its own DI scope if and only if no later connection uses the same state dict
  (`HttpScopes.OwnScopeExactlyWhen`, with an example in `HttpScopes.SharedDictLeaks`).
- The rewritten signature is valid if and only if the hidden parameters are not needed or their
  names are free (`EndpointContract.RewrittenValidExactlyWhen`, with an example in
  `EndpointContract.ReservedNameClashes`), and a call arrives with its injected values if and only
  if those parameters can be passed by name (`EndpointContract.CallIsForwardedExactlyWhen`, with an
  example in `EndpointContract.PositionalOnlyInjected`).
- `collect_appsettings_files` loads a base file given by its caller twice if and only if that file
  spells the overlay's stem in its only casing and is not the JSON file beside a TOML file
  (`SettingsDiscovery.GivenBaseLoadedTwiceExactlyWhen`, with an example in
  `SettingsDiscovery.OverlayGivenAsBase`); `load_configuration` never gives it such a file
  (`SettingsDiscovery.LoaderAgrees`).

## Model

| member | source | states |
|---|---|---|
| LifecycleSafety.TeardownOrder | src/pepelats/hosting/host_lifecycle.py:41-59 | in every interleaving and on every exit: app shutdown, stop signal, deadline, barrier, container close, flush happen in this order, each at most once; no service does anything behind the barrier, and every service has ended before the close begins |
| LifecycleSafety.TeardownComplete | src/pepelats/hosting/web_host_builder.py:156-169 | on every exit the container close is begun, an entered app lifespan was exited, created tasks were signalled and awaited, and observability is flushed exactly when the close returned normally |
| LifecycleSafety.FlushedOnlyAfterClose | src/pepelats/hosting/host_lifecycle.py:51-59 | at any point of any run, a flush has a normally returned container close before it and is the end of the run |
| LifecycleSafety.StartupAllOrNothing | src/pepelats/hosting/host_lifecycle.py:46-77 | either all registrations resolved with distinct names and service i belongs to registration i, or no service ever acts and the host has failed past serving |
| LifecycleSafety.DoubleRegistrationFails | src/pepelats/dependency_injection/service_collection.py:113-119 | registering one hosted type twice takes the failing path in every run: nothing starts, the host fails, teardown still runs |
| LifecycleSafety.OnlyStragglersAreCancelled | src/pepelats/hosting/host_lifecycle.py:85-103 | a service is cancelled if and only if the deadline found it unfinished after the stop signal; every other service had ended by then |
| LifecycleRuns.GraceIsExact | src/pepelats/hosting/host_lifecycle.py:89-94 | in every run, between the stop signal and the deadline host and services take exactly as many steps as the grace period has ticks |
| LifecycleRuns.BarrierExactlyWhenAllEnded | src/pepelats/hosting/host_lifecycle.py:90-103 | once the stop signal is given the host can go on exactly when every service has ended, before the deadline as well as behind it |
| LifecycleRuns.NoServiceActsBehindBarrier | src/pepelats/hosting/host_lifecycle.py:94-103 | no service takes any step once the barrier is passed or the close of the container has begun |
| LifecycleRuns.CancelledBeforeItsFirstStep | src/pepelats/hosting/host_lifecycle.py:99-103 | a service cancelled before its first step is never entered and logs nothing |
| LifecycleSafety.OutcomeIsFinal | src/pepelats/hosting/host_lifecycle.py:101-103 | no later action, cancellation included, changes a finished service |
| LifecycleSafety.ServiceLogGrammar | src/pepelats/hosting/background_service.py:23-36 | each service logs nothing, or starting, crashed exactly if it crashed, and stopped; the log is complete before the container close begins |
| LifecycleSafety.OnlyRaisesFail | src/pepelats/hosting/host_lifecycle.py:41-59 | with distinct names a host fails only if something in its run raised; crashes and cancellations of services never fail it |
| LifecycleRuns.FailsExactlyWhen | src/pepelats/hosting/host_lifecycle.py:41-59 | a host fails if and only if two names are equal, or resolving, the app lifespan, serving without an app lifespan, or the container's close raises |
| LifecycleRuns.ServingHost | src/pepelats/hosting/web_host_builder.py:156-169 | a serving host has entered its app lifespan, created all services, and cancelled none |
| LifecycleRuns.AnyServiceMayStart | src/pepelats/hosting/host_lifecycle.py:74-77 | while grace is left a created service that was not cancelled may start |
| LifecycleRuns.AnyOutcomeIsPossible | src/pepelats/hosting/background_service.py:23-36 | while grace is left a running service may return, crash, be cancelled or go on, and ends that way |
| LifecycleRuns.AnyFailureIsPossible | src/pepelats/hosting/host_lifecycle.py:41-77 | resolving, the app lifespan, serving and the close may each raise or not, in every run that gets there |
| LifecycleRuns.EveryStepIsTold | src/pepelats/hosting/background_service.py:23-36 | the trace tells every step of a service as often as it is taken |
| LifecycleIsolation.CrashIsolation | src/pepelats/hosting/background_service.py:26-36 | any run stays a run when any set of services returns where it raised: same host state and milestones, every other service identical with the same log, only the crash lines are gone |
| LifecycleIsolation.CrashesDoNotInterfere | src/pepelats/hosting/host_lifecycle.py:85-103 | of two action sequences that differ only in who raises and who returns, one is a run if the other is, and nothing but the outcome and crash line of those services differs |
| LifecycleIsolation.CalmExecute | src/pepelats/hosting/host_lifecycle.py:85-103 | the simulation behind it, from any state: replacing crashes by returns commutes with every action and changes nothing about what can be executed |
| LifecycleBound.TeardownIsBounded | src/pepelats/hosting/host_lifecycle.py:78-103 | all steps of host and services after the stop signal are at most the grace budget plus the steps left to cancelled services plus five |
| LifecycleBound.EveryRunCanExit | src/pepelats/hosting/host_lifecycle.py:41-103 | no reachable state is stuck, and a complete exit is reachable from each |
| HostedServices.HostedServices.Add | src/pepelats/hosting/hosted_services.py:13-20 | rejects exactly the taken names, appends otherwise, and keeps list and name set in step |
| HostedServices.HostedServices.AddAll | src/pepelats/hosting/host_lifecycle.py:46-47 | the registration loop gets through exactly when all names differ, and otherwise keeps the services before the first duplicate |
| HostedServices.AllAcceptedWhenDistinct | src/pepelats/hosting/hosted_services.py:13-20 | a run of additions is accepted whole if and only if no two names are equal |
| HostedServices.HostRegistersWhatIsAccepted | src/pepelats/hosting/host_lifecycle.py:46-47 | the resolving phase of the transition system registers what the registry accepts and fails where it rejects |
| BackgroundService.Start | src/pepelats/hosting/background_service.py:23-36 | logs starting, crashed on a crash only, stopped on every way out; a crash is swallowed, a cancellation passes; the lines fit the grammar of the lifecycle |
| InsertionOrder.PutAllCollapses | src/pepelats/configuration/section_coercion.py:52-68 | a dict filled entry by entry holds each key's last value at the position of its first assignment |
| InsertionOrder.CollapsesDetermines | src/pepelats/configuration/section_coercion.py:52-68 | that description fixes keys, values and order |
| SectionCoercion.CoerceSectionDataForModel | src/pepelats/configuration/section_coercion.py:45-68 | the in-place loop meets the description for its rewritten entries; anything but a dict passes through |
| SectionCoercion.IndexedDictToList | src/pepelats/configuration/section_coercion.py:101-113 | an indexed dict becomes the values in a stable numeric order of its keys, anything else stays as it is, and the size of the data is kept, so coercion ends for self-referential models |
| CoercionProperties.FieldHoldsLastMatch | src/pepelats/configuration/section_coercion.py:52-68 | a field holds the coerced value of the last entry whose key folds to it, or nothing |
| CoercionProperties.KeysInOrderOfOrigin | src/pepelats/configuration/section_coercion.py:52-68 | the keys of the result stand in the order of the entries they come from: a field at the place of the first key that folds to it, an entry without a field at its own place |
| CoercionProperties.UnmatchedEntryUntouched | src/pepelats/configuration/section_coercion.py:55-63 | an entry with no field, or a key that is no string, keeps its key and its whole subtree |
| CoercionProperties.CasingDoesNotMatter | src/pepelats/configuration/section_coercion.py:45-98 | sections that differ only in the casing of structural keys, at any depth and through every wrapper, coerce to the same ordered value, for self-referential models too |
| CoercionProperties.RespeltKeyIsSame | src/pepelats/configuration/section_coercion.py:52-66 | respelling any one field key in any casing is such a difference |
| CoercionProperties.CoercedIsCanonical | src/pepelats/configuration/section_coercion.py:45-98 | the result has unique keys, field keys spelt as the model declares them, and no indexed dict under a list of models, at every depth |
| CoercionProperties.UnchangedExactlyWhenCanonical | src/pepelats/configuration/section_coercion.py:45-98 | coercion leaves a section alone if and only if it already has that shape |
| CoercionProperties.CoercionIsIdempotent | src/pepelats/configuration/section_coercion.py:45-109 | coercing twice is coercing once, order and converted lists included |
| CoercionProperties.DataKeysPreserved | src/pepelats/configuration/section_coercion.py:87-98 | keys of a dict-valued field are preserved exactly and in place; without a model inside, the whole value is |
| CoercionProperties.LookupFindsLast | src/pepelats/configuration/section_coercion.py:52 | of fields whose names fold alike the last one is addressed |
| AnnotationLaws.WrappersAreTransparent | src/pepelats/configuration/section_coercion.py:141-151 | `Annotated`, `Optional` and a union with `None` in any place are coerced as the one annotation in them |
| AnnotationLaws.InnerWrappersAreTransparent | src/pepelats/configuration/section_coercion.py:120-135 | so are they around the items of a list and the values of a dict |
| AnnotationLaws.ModelIsSection | src/pepelats/configuration/section_coercion.py:71-74 | a model field is coerced as a section of its own |
| AnnotationLaws.ListOfModels | src/pepelats/configuration/section_coercion.py:76-85 | a list of models has a coerced section in every place, an indexed dict in the order of its indices; an empty dict or one with another key stays |
| AnnotationLaws.DictOfModels | src/pepelats/configuration/section_coercion.py:87-96 | a dict of models keeps its keys in place and has a coerced section under each |
| AnnotationLaws.NoModelNoChange | src/pepelats/configuration/section_coercion.py:71-98 | without a model in the field, the items or the values, everything stays as it is |
| AnnotationLaws.LawsCoverAll | src/pepelats/configuration/section_coercion.py:116-151 | these laws leave no annotation out |
| AnnotationLaws.OptionalListOfModels | src/pepelats/configuration/section_coercion.py:141-151 | `list[Model] or None` binds its items as sections |
| AnnotationLaws.CasingIsFreeForFieldKeys | src/pepelats/configuration/section_coercion.py:52-66 | which sections differ in casing only: entry by entry, field keys in any casing and what their fields allow below, all else equal |
| AnnotationLaws.CasingIsFreeInModels | src/pepelats/configuration/section_coercion.py:71-74 | below a model field casing is free where it is in its section, through every wrapper |
| AnnotationLaws.CasingIsFreeInLists | src/pepelats/configuration/section_coercion.py:76-85 | below a list of models casing is free in the section of every place, in a list as in an indexed dict |
| AnnotationLaws.CasingIsFreeInDicts | src/pepelats/configuration/section_coercion.py:87-96 | below a dict of models casing is free in the section under every key, and not in the keys |
| CoercionProperties.IndexedDictIsStableSort | src/pepelats/configuration/section_coercion.py:101-109 | an indexed dict becomes the values in the one stable numeric order of its keys |
| CoercionProperties.IndexSpellings | src/pepelats/configuration/section_coercion.py:108-113 | the string and the int of a number both index it, exactly for natural numbers |
| AsciiText.ParsedNatShows | src/pepelats/configuration/section_coercion.py:108 | every string of digits is its number in decimal behind leading zeros |
| AsciiText.FoldsCapitals | src/pepelats/configuration/section_coercion.py:52-60 | folding turns each capital letter into its small one and nothing else |
| CoercionProperties.IndexRoundTrip | src/pepelats/configuration/section_coercion.py:101-113 | a non-empty list written with decimal index keys, in any order and any spelling, converts back to the list |
| CoercionProperties.IndexedListBindsAlike | src/pepelats/configuration/section_coercion.py:76-85 | under a list of models both forms coerce identically |
| StableSort.SortIsStable | src/pepelats/configuration/section_coercion.py:108 | sorting gives ascending keys with equal keys in their original order |
| StableSort.StableSortIsUnique | src/pepelats/hosting/pipeline.py:61 | there is only one such order |
| HostBootstrap.ReaderAgreesExactlyWhen | src/pepelats/configuration/section_coercion.py:24-42 | given the keys of a section, the single-field reader agrees with coercion for all values if and only if at most one key folds to the field and the field owns its fold, unless no key matches |
| HostBootstrap.FirstAgainstLast | src/pepelats/configuration/section_coercion.py:36-42 | section by section: the reader takes the first match where coercion keeps the last, and they agree exactly when both give the same value |
| HostBootstrap.BothCasingsDisagree | src/pepelats/hosting/host_bootstrap.py:66-74 | a `[host]` section that says the shutdown timeout in two casings is read and coerced differently |
| HostBootstrap.GeneratedIdWinsExactlyWhen | src/pepelats/hosting/host_bootstrap.py:52-60 | the generated instance id is bound if and only if no other casing of the key stands behind an exact one |
| HostBootstrap.ShadowedInstanceId | src/pepelats/hosting/host_bootstrap.py:52-60 | a section with both spellings loses the generated id |
| HostBootstrap.OtherServiceFieldsUntouched | src/pepelats/hosting/host_bootstrap.py:52-60 | everything in the service section but the id is bound as if no id had been generated |
| HostBootstrap.NameAndVersionAreBound | src/pepelats/configuration/service_config.py:6-9 | service name and version are bound to the last value the section gives them, in whichever casing |
| Observability.Globals.ConfigureObservability | src/pepelats/observability/setup.py:22-70 | a second call does nothing; otherwise the new globals, and an error exactly when tracing, metrics or logging raise, with what exists by then left behind |
| Observability.Globals.ShutdownObservability | src/pepelats/observability/setup.py:73-97 | when configured, every held provider is shut down once, in the order logger, meter, tracer, and all handles are cleared |
| Observability.Globals.ConfigureLogging | src/pepelats/observability/logging.py:26-75 | a logger provider exactly for a non-empty endpoint, unless a sink raises before |
| Observability.Build | src/pepelats/hosting/web_host_builder.py:81-120 | what fails after the configuration is undone, a configuration that raises is not; for the ledger a build is one configure call, and a shutdown exactly when it failed |
| ProviderLedger.ConservedExactlyWhen | src/pepelats/observability/setup.py:22-91 | over any sequence of configure and shutdown calls, raising anywhere, each provider is held once or shut down once, if and only if no configure call gets past tracing after one that raised past tracing |
| ProviderLedger.RetryAfterUnknownSinkLoses | src/pepelats/observability/sinks.py:38-43 | an unknown sink and a corrected retry lose two providers: no handle reaches them and they are never shut down |
| ProviderLedger.EpisodesConserve | src/pepelats/hosting/web_host_builder.py:88-120 | when configuring does not raise, over any sequence of hosts of any fate: nothing is lost, the flag is true exactly while tracer and meter are held, and after a host that was served to its exit or failed to build everything was shut down exactly once |
| ProviderLedger.HostHoldsItsProviders | src/pepelats/observability/setup.py:32-61 | a host alone holds a tracer, then a meter, then exactly with export enabled a logger provider, all of its own |
| ProviderLedger.LastUpFirstDown | src/pepelats/observability/setup.py:88-90 | providers come up as tracer, meter, logger and go down as logger, meter, tracer |
| ProviderLedger.ProvidersByFault | src/pepelats/observability/setup.py:39-61 | how many providers a configure call creates, by the place where it raises; each is held by one handle and none is shut down |
| ProviderLedger.EnabledExports | src/pepelats/observability/observability_config.py:29-36 | enabling export asks for an endpoint that is not blank, and then exports; disabled never does |
| HostEpisodes.LifeFlushesOnce | src/pepelats/hosting/host_lifecycle.py:51-59 | a complete lifecycle run calls shutdown once when the close of its container returned, and never otherwise |
| HostEpisodes.HostsConserve | src/pepelats/hosting/web_host_builder.py:88-120 | when configuring does not raise, over any sequence of hosts, whether the rest of each build works or fails and with any complete lifecycle run of each host: no provider is lost, everything is shut down exactly once when the last build failed or the last container closed, and is still held otherwise |
| HostEpisodes.HostsConserveExactlyWhen | src/pepelats/hosting/web_host_builder.py:81-120 | over any sequence of hosts, with any outcome of each build, configure calls that raise among them, and any complete lifecycle run of each: every provider is held once or shut down once, if and only if no host is built past tracing after one whose configure call raised past tracing |
| RouteInjection.FindConnectionParam | src/pepelats/integrations/fastapi/route_injection.py:100-113 | the scan of the hints, in the order Python lists them, finds the last request parameter, otherwise the last websocket parameter |
| EndpointContract.PreferredConnection | src/pepelats/integrations/fastapi/route_injection.py:104-113 | a request is preferred to a websocket, and of several the last in the order of the hints is found |
| EndpointContract.PositionalOnlyHintIsLater | src/pepelats/integrations/fastapi/route_injection.py:104-113 | a positional-only request is found before a plain one that follows it |
| RouteInjection.InjectedDependencies | src/pepelats/integrations/fastapi/route_injection.py:76-85 | the scan collects exactly the injected parameters, in order of declaration |
| EndpointContract.Wrapper | src/pepelats/integrations/fastapi/route_injection.py:61-66 | if a connection was supplied and every type resolves, an accepted call becomes a call that binds the handler and delivers every injected value, if and only if those can be passed by name; the values come from the provider of the connection the call carries; otherwise the first type that does not resolve raises |
| EndpointContract.CarriedIsFound | src/pepelats/integrations/fastapi/route_injection.py:88-97 | the connection that is found is the one the call carries, under a declared or a hidden name |
| EndpointContract.RewrittenValidExactlyWhen | src/pepelats/integrations/fastapi/route_injection.py:116-159 | the rewritten signature of a valid handler is valid if and only if no hidden parameter is needed or none of their names is used by what stays |
| EndpointContract.RewrittenParameters | src/pepelats/integrations/fastapi/route_injection.py:54-59 | the parameters are the original ones without the injected, plus the hidden pair exactly when no connection is declared; a declared connection survives |
| EndpointContract.HiddenPairIsAdded | src/pepelats/integrations/fastapi/route_injection.py:26-31 | without a declared connection the rewritten signature asks for a request and a websocket by keyword |
| EndpointOrder.RewrittenKeepsOrder | src/pepelats/integrations/fastapi/route_injection.py:116-159 | the parameters that stay keep their order |
| EndpointOrder.InjectedInOrder | src/pepelats/integrations/fastapi/route_injection.py:76-85 | injected parameters are resolved in the order they are declared |
| EndpointContract.CallIsForwardedExactlyWhen | src/pepelats/integrations/fastapi/route_injection.py:61-66 | an accepted call is forwarded as a call that binds the handler and delivers every injected value, if and only if every injected parameter can be passed by name |
| EndpointContract.CallerArgumentsUnchanged | src/pepelats/integrations/fastapi/route_injection.py:61-66 | a parameter that stays gets exactly what the caller passed for it |
| EndpointContract.NothingElseIsForwarded | src/pepelats/integrations/fastapi/route_injection.py:88-97 | besides injected values only the caller's own names are forwarded, unchanged, and added hidden connections never |
| EndpointContract.VarKeywordsReceive | src/pepelats/integrations/fastapi/route_injection.py:61-66 | the handler's own `**kwargs` receives what it would have received without the rewriting, apart from added hidden connections |
| EndpointContract.BoundCallIsAccepted | src/pepelats/integrations/fastapi/route_injection.py:116-136 | a call that binds the rewritten signature with the connection supplied is an accepted call |
| EndpointContract.AcceptedExactlyWhen | src/pepelats/integrations/fastapi/route_injection.py:88-136 | the accepted calls are exactly those that supply a connection and bind the rewritten signature once both hidden connections are filled in, of which the framework passes the one that fits the transport |
| EndpointContract.ReservedNameClashes | src/pepelats/integrations/fastapi/route_injection.py:116-159 | a handler with a parameter of a hidden name gets an invalid signature |
| EndpointContract.PositionalOnlyInjected | src/pepelats/integrations/fastapi/route_injection.py:61-66 | an injected positional-only parameter makes a valid endpoint whose calls never bind the handler |
| HttpScopes.OpenScopesAreLiveConnections | src/pepelats/hosting/http_di.py:38-47 | in every interleaving open scopes are one to one with the HTTP and WebSocket connections inside the inner app or just leaving it |
| HttpScopes.ScopeClosedOnce | src/pepelats/hosting/http_di.py:44-47 | each scope is closed exactly once, when its connection finishes, whether the inner app returned or raised |
| HttpScopes.FinishedAsInnerEnded | src/pepelats/hosting/http_di.py:38-47 | a connection ends with an exception exactly when its scope failed to open or its inner app raised |
| HttpScopes.EveryConnectionCanFinish | src/pepelats/hosting/http_di.py:38-47 | no connection gets stuck: it can return or raise, and then closes its scope |
| HttpScopes.OwnScopeExactlyWhen | src/pepelats/hosting/http_di.py:66-69 | a connection is given its own open scope if and only if no connection with the same state dict was given one later |
| HttpScopes.SeparateDictsSeeOwnScope | src/pepelats/hosting/http_di.py:45-47 | with separate state dicts no connection ever sees another's scope |
| HttpScopes.SharedDictLeaks | src/pepelats/hosting/http_di.py:46 | with a shared state dict the earlier connection is given the later one's scope |
| Pipeline.HostPipeline.Use | src/pepelats/hosting/pipeline.py:43-48 | appends the registration and changes nothing else |
| Pipeline.HostPipeline.MapRoute | src/pepelats/hosting/pipeline.py:50-53 | appends the route and leaves the middleware alone |
| Pipeline.BuildPipeline | src/pepelats/hosting/web_host_builder.py:138-146 | the built-ins with their fixed orders come before all user registrations |
| Pipeline.BuiltInNesting | src/pepelats/hosting/web_host_builder.py:138-143 | without user middleware instrumentation, exception logging and the request scope run in this order from outside in |
| Pipeline.RunsOutsideExactlyWhen | src/pepelats/hosting/pipeline.py:59-62 | an earlier registration runs outside a later one if and only if its order is not higher |
| Pipeline.UserAgainstBuiltIn | src/pepelats/hosting/pipeline.py:26-28 | user middleware runs inside instrumentation from order 100 on, inside exception logging from 200 on, and inside the request scope from 300 on |
| Pipeline.BuiltFromAnyStableSort | src/pepelats/hosting/pipeline.py:61-62 | any stable sort of the registrations gives the built list |
| Pipeline.RequestPassesOutsideIn | src/pepelats/hosting/pipeline.py:59-62 | a request enters the middleware in that order, reaches the app, and leaves in reverse |
| SettingsDiscovery.Collect | src/pepelats/configuration/appsettings_discovery.py:22-38 | in terms of the directory: the given base or the one chosen file that spells the base, then the chosen overlay unless nothing spells it; missing base, ambiguous base and ambiguous overlay are reported exactly when they occur, in this order, and an ambiguity names every file |
| SettingsDiscovery.DiscoveryIgnoresListingOrder | src/pepelats/configuration/appsettings_discovery.py:22-71 | base, overlay and errors do not depend on the order of the directory listing |
| SettingsDiscovery.ResolveChoice | src/pepelats/configuration/appsettings_discovery.py:51-71 | ambiguous exactly when two differently cased spellings exist, nothing exactly when none does, and a file exactly when it is the TOML spelling, or the JSON one where there is no TOML |
| SettingsDiscovery.NeverTheSameFileTwice | src/pepelats/configuration/appsettings_discovery.py:28-38 | the discovered base is never the overlay, for any environment name |
| SettingsDiscovery.GivenBaseLoadedTwiceExactlyWhen | src/pepelats/configuration/appsettings_discovery.py:26-38 | a base given by the caller is loaded twice if and only if it spells the overlay's stem, nothing spells it in another casing, and it is not a JSON file beside a TOML file |
| SettingsDiscovery.OverlayGivenAsBase | src/pepelats/configuration/appsettings_discovery.py:26-38 | an overlay file given as the base is loaded twice |
| SettingsDiscovery.LoaderAgrees | src/pepelats/configuration/configuration_loader.py:21-27 | the loader gives the base it required itself, which changes nothing and is never loaded twice |

## Left out

- The lifecycle is a transition system over values, not a class: its two `async with` scopes interleave with service tasks at every await, which a sequential method cannot show.
- Wall-clock time: the shutdown timeout is a budget of event loop ticks.
- Cancellation of the host itself during teardown, `KeyboardInterrupt` and `SystemExit` in services, and services that never end after cancellation.
- Failures inside `shutdown_observability` and in the providers' own shutdown.
- A provider whose own construction raises: providers count from the moment they reach their handle.
- Hosts that overlap in time: the ledger takes the hosts of a process one after the other.
- Non-ASCII text: `lower`, `isdigit` and `int` are modelled on ASCII, where `isdigit` and `int` accept the same digits.
- Python's equality of `1`, `True` and `1.0` as dict keys: keys of different types are different keys here.
- Validation by pydantic, which is applied to the coerced value and never seen.
- Loading and merging of settings by Dynaconf, `.env` files, environment variables and the environment name.
- SettingsDiscovery.GivenBaseLoadedTwiceExactlyWhen: files are known by their name in the settings directory; a base file given from another directory is not modelled.
- SettingsDiscovery.Resolve: an ambiguity error carries the set of file names instead of the sorted, joined message.
- Dishka's resolution, caching and finalizers beyond `get`, opening and closing a scope.
- EndpointContract.Wrapper: covers keyword calls of async handlers; positional calls and handlers that are not async are not modelled.
- The body of `get_type_hints`: parameters carry their resolved annotations.
- Endpoint names, docstrings and annotations copied to the wrapper.
- OpenTelemetry, structlog and the log handlers, except which providers exist and which are shut down.
- Registration on the builder and on the service collection before `build`: appending to lists that the model takes as given.
- The FastAPI application factory, the example apps and the configuration getters, which would only add easy members.
