# fastapi_serviceutils: a verified model of its configuration and endpoint logic

`fastapi_serviceutils` is a helper library for FastAPI services. Most of it
wires together third-party libraries. This project models the four pieces that
contain sequential logic of their own, and it proves what these pieces do.

1. **The environment-variable overlay** (`base/service_config.py`).
   - A service's YAML configuration is a nested mapping. For each suffix `S`
     in a declared list, one environment variable can override one nested key.
   - The variable is named `SERVICENAME_S`. The key path comes from that name:
     every occurrence of `SERVICENAME_` is removed, the rest is lower-cased
     and then split on `__`.
   - A variable that is set and non-empty overwrites its key through a
     copy-on-write nested update (`toolz.update_in`). Missing intermediate
     mappings are created on the way.
   - `update_config` runs three overlays in turn. The first runs on the whole
     configuration, which is re-validated against the `Config` model after
     every write. The other two run on the free-form `external_resources`
     and `rules` sections, which are assigned back into the config object.
2. **Versioned endpoint rewriting** (`app/endpoints/__init__.py`).
   - `set_version_endpoints` builds one new `Endpoint` per definition. The new
     endpoint is tagged with the version, and its route is produced by a
     `{name}` prefix template.
   - For `latest`, every occurrence of the definition's own version in its
     route is first replaced by `latest`.
3. **Default-endpoint appending**: two variants, both of which append to the
   caller's list in place.
   - The `Endpoint` variant (`app/endpoints/__init__.py`) also retags the
     shared default endpoints with `status`.
   - The dict variant is in `default_endpoints/__init__.py`.
4. **The service-creation CLI** (`cli/create_service.py`).
   - `_check_name` decides whether a service or endpoint name is valid. Its
     allowed characters come from the text of `str(set(letters))`.
   - `_create_context` builds the cookiecutter context.

## How the model is organised

| module | file | models |
|---|---|---|
| `Results` | `results.dfy` | `Option` and `Result`. An exception or `sys.exit` becomes an `Err`. |
| `Text` | `text.dfy` | Python's `str.replace`, `lower`, `upper`, `split` and `join`, with lemmas about them. |
| `ConfigTree` | `config_tree.dfy` | The untyped configuration tree, `update_in`, lookups by path. |
| `ServiceConfig` | `service_config.dfy` | Key paths and the overlay without a model (a pure `Overlay` function and the loop method proved equal to it). |
| `ConfigModel` | `config_model.dfy` | The `Config` model, `dict()` and `parse_obj`, the overlay with the model (one new `Config` object per write), and `update_config` on a `Config` object that it assigns in place. |
| `Framework` | `framework.dfy` | A FastAPI router (an identity), and a mutable Python list as a class with `Append`. |
| `Endpoints` | `endpoints.dfy` | The `Endpoint` dataclass as a class, `str.format` on a template, `set_version_endpoints`, and the `Endpoint` variant of `add_default_endpoints`. |
| `DefaultEndpoints` | `default_endpoints.dfy` | The dict variant of `add_default_endpoints`. |
| `CreateService` | `create_service.dfy` | `_check_name` and `_create_context`. |

- **Environment.** The process environment is a parameter `env: map<string, string>`.
- **Templates.** A prefix template is given already split into literal text and `{name}` fields.
- **Loops.** Where the source loops, the model has a `method` with a `for` loop.
  - Each loop is proved against a pure function (`Overlay`, `TypedOverlay`, `Defaults`, `DefaultRoutes`).
  - The lemmas about those functions carry the properties.
- **Mutation.** The source changes three things in place, and each is a class with `modifies` clauses:
  - the caller's endpoint list;
  - the `tags` of the shared default endpoints;
  - the `external_resources`/`rules` fields of the config object.

## Behaviour worth knowing

The model follows the code. In four places the code does something other than
what its names, messages or docstrings suggest. In each case the model states
the behaviour the code actually has.

- **The prefix is removed everywhere.** Take service `SVC` and suffix `A__SVC_B`. The key path is `["a", "b"]`, not `["a", "svc_b"]` (`ServiceConfig.KeyPathRemovesEveryPrefix`).
  - When the prefix does not recur inside the suffix, the path is the lower-cased suffix split on `__` (`ServiceConfig.KeyPathConvention`).
- **Re-running the overlay is idempotent only conditionally.**
  - If the second run succeeds, it returns its input unchanged (`ServiceConfig.OverlayIdempotent`).
  - The second run can raise, however. `A__B` writes beneath `a`, then `A` overwrites `a` with a string. A second pass then meets a string where it needs a mapping (`ServiceConfig.OverlayNotIdempotent`).
- **The name check is not what its message says.** The message asks for ASCII letters and numbers. In fact:
  - upper-case letters are rejected;
  - `{`, `}`, `'` and `,` are accepted, because they are part of the set's printed text;
  - the empty name is accepted (`CreateService.CheckNameCharacterized`, `CreateService.SetPunctuationAccepted`, `CreateService.EmptyNameAccepted`).
- **Which object `update_config` returns depends on the overlay.**
  - If some general variable is applied, `update_config` returns a new `Config` and leaves the caller's object untouched.
  - Otherwise it assigns the free-form fields of the caller's object and returns that same object (`ConfigModel.UpdateConfig`).

## Model

| member | source | states |
|---|---|---|
| ConfigTree.UpdateIn | fastapi_serviceutils/base/service_config.py:101-124 | A successful update binds the first key of the list at the top level and keeps every other top-level key. Success, the stored value and the untouched paths are stated by the four `UpdateIn…` lemmas below. |
| ConfigTree.Lookup | fastapi_serviceutils/base/service_config.py:101-124 | Reads the value at a key path. A non-empty path is found only through a mapping that holds its first key. |
| ConfigTree.UpdateInSucceeds | fastapi_serviceutils/base/service_config.py:101-124 | The nested update succeeds exactly when the key list is non-empty and no existing intermediate value along it is a non-mapping. |
| ConfigTree.UpdateInBeneath | fastapi_serviceutils/base/service_config.py:123-124 | After a successful update, looking up the key list gives the new value. Any deeper path reads what lies beneath the new value. |
| ConfigTree.UpdateInAbove | fastapi_serviceutils/base/service_config.py:123-124 | After a successful update, every proper prefix of the key list holds a mapping, so missing intermediates are created as mappings. |
| ConfigTree.UpdateInElsewhere | fastapi_serviceutils/base/service_config.py:123-124 | A path that neither contains nor lies within the key list reads the same before and after the update. |
| ConfigTree.ObsExtensional | fastapi_serviceutils/base/service_config.py:123-124 | Two configuration trees that agree on what sits at every path are equal. This is how whole results are compared. |
| Text.Split | fastapi_serviceutils/base/service_config.py:202 | `split('__')` always returns at least one piece. |
| Text.Lower | fastapi_serviceutils/base/service_config.py:202 | Lower-casing keeps the length and maps each character on its own. |
| Text.Upper | fastapi_serviceutils/service.py:95 | Upper-casing keeps the length, maps each character on its own and leaves no lower-case ASCII letter. |
| Text.JoinSplit | fastapi_serviceutils/base/service_config.py:202 | Joining the pieces of a split with the same separator gives back the original string. |
| Text.SplitPiecesAvoidSeparator | fastapi_serviceutils/base/service_config.py:202 | No piece of a split contains the separator, so no key segment contains `__`. |
| Text.ReplaceAll | fastapi_serviceutils/base/service_config.py:202 | `str.replace` without a count. Its meaning is stated by `Text.ReplaceIsSplitJoin`, `Text.ReplaceAbsent` and `Text.ReplaceLeading`. |
| Text.Join | fastapi_serviceutils/base/service_config.py:202 | `str.join`. Joining the pieces of a split gives the string back (`Text.JoinSplit`). |
| Text.ReplaceIsSplitJoin | fastapi_serviceutils/base/service_config.py:202 | For a non-empty pattern, `replace` removes or replaces every occurrence. Equivalently, it splits on the pattern and joins with the replacement. |
| Text.ReplaceAbsent | fastapi_serviceutils/base/service_config.py:202 | A string in which the pattern does not occur comes out of `replace` unchanged. |
| Text.ReplaceLeading | fastapi_serviceutils/base/service_config.py:202 | A leading occurrence of the pattern is replaced, and the rest of the string is processed the same way. |
| ServiceConfig.EnvironmentPrefix | fastapi_serviceutils/service.py:95 | The prefix is the service name upper-cased: the same length, no lower-case letter left, and equal to the name once both are lower-cased. |
| ServiceConfig.UpdateConfigWithEnvironmentVariables | fastapi_serviceutils/base/service_config.py:172-213 | The loop's result is the overlay function: suffixes applied in list order, each applied only when its variable is set and non-empty, stopping at the first error. |
| ServiceConfig.OverlayErrorSticks | fastapi_serviceutils/base/service_config.py:200-212 | Once the suffixes up to some point fail, the whole overlay fails with that same error. |
| ServiceConfig.EnvVarName | fastapi_serviceutils/base/service_config.py:201 | The variable name is the service name, `_` and the suffix. The key path it yields is stated by `ServiceConfig.KeyPathOfSuffix`. |
| ServiceConfig.KeyPath | fastapi_serviceutils/base/service_config.py:202 | A key path has at least one key, and no key contains `__`. |
| ServiceConfig.UseEnvironmentValue | fastapi_serviceutils/base/service_config.py:155-169 | Without a model:<br>- a config that is not a mapping raises, because it has no `dict()`;<br>- otherwise the write succeeds exactly when the key list is non-empty and no existing intermediate is a non-mapping;<br>- on success the result is a mapping that holds the content at the key path. |
| ServiceConfig.Step | fastapi_serviceutils/base/service_config.py:203-212 | One loop iteration: it writes only when the variable is set and non-empty. Its effect is stated by the overlay lemmas below. |
| ServiceConfig.Overlay | fastapi_serviceutils/base/service_config.py:200-213 | A successful overlay of a mapping is a mapping. A successful overlay of anything else returns it unchanged, because any applied variable would raise on it. |
| ServiceConfig.KeyPathOfSuffix | fastapi_serviceutils/base/service_config.py:201-202 | The variable name's leading `SERVICENAME_` is always removed, so the key path depends only on what removal, lower-casing and splitting do to the suffix. |
| ServiceConfig.KeyPathConvention | fastapi_serviceutils/base/service_config.py:201-202 | If the prefix does not recur in the suffix, the key path is the lower-cased suffix split on `__`. Joined with `__` it gives the lower-cased suffix back, and no segment contains `__`. |
| ServiceConfig.KeyPathFlat | fastapi_serviceutils/base/service_config.py:202 | A suffix without underscores addresses the single key that is its lower-cased form. |
| ServiceConfig.KeyPathNested | fastapi_serviceutils/base/service_config.py:202 | `A__B` addresses key `b` inside key `a`, given that `A` and `B` have no underscores and the prefix does not recur. |
| ServiceConfig.KeyPathRemovesEveryPrefix | fastapi_serviceutils/base/service_config.py:202 | For suffix `A__SVC_B`, the key path is `[a, b]`, while splitting the lower-cased suffix would give `[a, svc_b]`. This holds because every occurrence of the prefix is removed. |
| ServiceConfig.OverlayUnset | fastapi_serviceutils/base/service_config.py:203-205 | If no listed variable is set to a non-empty value, the overlay returns the config unchanged. This includes the empty list. |
| ServiceConfig.OverlayConcat | fastapi_serviceutils/base/service_config.py:200-213 | The suffixes are applied in list order. Overlaying `a + b` is overlaying `a`, then `b` on the result. |
| ServiceConfig.OverlayReadsOnlyListed | fastapi_serviceutils/base/service_config.py:201-205 | The overlay depends only on the variables named by the listed suffixes and on whether each one is non-empty. |
| ServiceConfig.OverlayObserved | fastapi_serviceutils/base/service_config.py:200-212 | After a successful overlay, the content at any path is decided by the last applied write that touches that path, or by the input if no write does. |
| ServiceConfig.OverlayLastWins | fastapi_serviceutils/base/service_config.py:200-212 | After a successful overlay, an applied suffix's path holds its variable's value, unless a later applied suffix touches that path: later writes win. |
| ServiceConfig.OverlayIdempotent | fastapi_serviceutils/base/service_config.py:200-212 | Running the overlay again on its own output, with the same environment, gives the output back whenever the second run does not raise. |
| ServiceConfig.OverlayNotIdempotent | fastapi_serviceutils/base/service_config.py:200-212 | Here the first run succeeds and the second raises, so idempotence is only conditional: service `S`, suffixes `A__B` then `A`, both variables set. |
| ConfigModel.TypedSection | fastapi_serviceutils/base/service_config.py:13-42 | A typed section validates exactly when all of these hold:<br>- it is present and is a mapping;<br>- it holds every declared field;<br>- every `List[str]` field holds a list.<br>The result keeps exactly the declared fields, unchanged. Otherwise the error names the section. |
| ConfigModel.FreeFormSection | fastapi_serviceutils/base/service_config.py:80-81 | A free-form section validates exactly when it is absent (read as `None`), `None` or a mapping, and it is kept as given. |
| ConfigModel.ParseObj | fastapi_serviceutils/base/service_config.py:65-81 | A validated config has exactly the declared fields in each typed section, with a list in every `List[str]` field. Each free-form section holds a mapping or `None`. |
| ConfigModel.ToTree | fastapi_serviceutils/base/service_config.py:158 | `dict()` of a config is a mapping with exactly the five section keys. |
| ConfigModel.ParseObjToTree | fastapi_serviceutils/base/service_config.py:155-167 | Validating the `dict()` of a valid config gives back that config. |
| ConfigModel.ParseObjKeepsFields | fastapi_serviceutils/base/service_config.py:166-167 | Validation keeps every declared field of the tree unchanged. |
| ConfigModel.TypedFieldWrite | fastapi_serviceutils/base/service_config.py:127-169 | A string written to a `str` field of a valid config always succeeds and survives re-validation. The new `dict()` is the updated tree. |
| ConfigModel.TypedListFieldRejected | fastapi_serviceutils/base/service_config.py:15-17 | A string written to a `List[str]` field, such as `service.allowed_hosts` or `available_environment_variables.env_vars`, makes re-validation fail, and the error names that section. |
| ConfigModel.TypedUndeclaredKeyDropped | fastapi_serviceutils/base/service_config.py:166-167 | A write to an undeclared key inside a typed section succeeds, but re-validation drops it, leaving the config as it was. |
| ConfigModel.TypedUnknownSectionDropped | fastapi_serviceutils/base/service_config.py:166-167 | A write to an undeclared top-level key is dropped by re-validation. |
| ConfigModel.TypedSectionOverwriteRejected | fastapi_serviceutils/base/service_config.py:166-167 | Overwriting a whole typed section with a string makes re-validation fail, and the error names that section. |
| ConfigModel.TypedStep | fastapi_serviceutils/base/service_config.py:166-167 | One iteration with the model keeps a valid config valid. |
| ConfigModel.TypedOverlay | fastapi_serviceutils/base/service_config.py:172-213 | The overlay with the model keeps a valid config valid. |
| ConfigModel.TypedOverlayUnset | fastapi_serviceutils/base/service_config.py:203-205 | With no listed variable applied, the overlay with the model returns the config unchanged. |
| ConfigModel.TypedOverlayOnFields | fastapi_serviceutils/base/service_config.py:172-213 | If every applied variable names a `str` field, the overlay with the model never fails and yields a valid config. Its `dict()` equals the overlay without a model applied to the original `dict()`. |
| ConfigModel.TypedErrorSticks | fastapi_serviceutils/base/service_config.py:200-212 | Once the suffixes up to some point fail, the whole overlay with the model fails with that same error. |
| ConfigModel.Config.constructor | fastapi_serviceutils/base/service_config.py:65-81 | A new config object holds exactly the validated content it is built from. |
| ConfigModel.UpdateModelWithEnvironmentVariables | fastapi_serviceutils/base/service_config.py:172-213 | The loop with `model=Config` matches the overlay with the model in success, content and error. With nothing applied it returns the caller's object; otherwise it returns a new object. |
| ConfigModel.UpdateConfig | fastapi_serviceutils/base/service_config.py:216-256 | `update_config` matches the pure three-stage update in success, content and error. If a general variable applies, the caller's object is untouched and the result is new. Otherwise the caller's object is returned, with its free-form fields assigned up to the first failure. |
| ConfigModel.UpdateSections | fastapi_serviceutils/base/service_config.py:216-256 | A successful `update_config` keeps a valid config valid. The typed sections come from the validated overlay, and the free-form sections stay mappings or `None`. |
| ConfigModel.InPlaceResult | fastapi_serviceutils/base/service_config.py:239-255 | The caller's object keeps its typed sections. When both free-form overlays succeed, the object holds what `update_config` computes with no general variable. |
| ConfigModel.UpdateSectionsFreeFormRooted | fastapi_serviceutils/base/service_config.py:239-244 | A variable listed for `external_resources` writes beneath that section, with later writes winning. The typed sections are left to the general overlay. |
| ConfigModel.UpdateSectionsRulesRooted | fastapi_serviceutils/base/service_config.py:250-255 | A variable listed for `rules` writes beneath that section, with later writes winning. The typed sections are left to the general overlay. |
| ConfigModel.UpdateSectionsUnset | fastapi_serviceutils/base/service_config.py:227-256 | With no variable applied in any of the three lists, `update_config` leaves the config as it was. |
| ConfigModel.UpdateSectionsNullResources | fastapi_serviceutils/base/service_config.py:155-158 | If `external_resources` is `None` and its first listed variable is applied, the update raises, because `None` has no `dict()`. |
| Framework.ItemList.constructor | fastapi_serviceutils/default_endpoints/__init__.py:14-16 | A list object holds the given items. |
| Framework.ItemList.Append | fastapi_serviceutils/default_endpoints/__init__.py:34 | `append` adds one item at the end and changes nothing else. |
| Framework.KnownPrefix | fastapi_serviceutils/default_endpoints/__init__.py:33-34 | Gives how many leading names the table knows before the first unknown one. That unknown name is where the loop raises. |
| Endpoints.Endpoint.constructor | fastapi_serviceutils/app/__init__.py:22-38 | A new `Endpoint` has the given router, route and version, and no tags. |
| Endpoints.Format | fastapi_serviceutils/app/endpoints/__init__.py:73 | `str.format` on a parsed template. Its meaning is stated by `Endpoints.FormatSucceeds`, `Endpoints.FormatField` and `Endpoints.FormatConcat`. |
| Endpoints.FormatSucceeds | fastapi_serviceutils/app/endpoints/__init__.py:73 | Formatting the template succeeds exactly when every field has an argument. |
| Endpoints.FormatField | fastapi_serviceutils/app/endpoints/__init__.py:73 | A template that is one field formats to that field's argument. |
| Endpoints.FormatConcat | fastapi_serviceutils/app/endpoints/__init__.py:73 | Formatting two templates written one after the other concatenates their results. |
| Endpoints.SetVersionEndpoints | fastapi_serviceutils/app/endpoints/__init__.py:14-75 | It succeeds exactly when every route can be built; otherwise it fails with the error of the first definition that cannot. On success it returns one new, distinct endpoint per definition, in order, each with:<br>- the definition's router;<br>- version `version` and tags `[version]`;<br>- the rewritten route.<br>It has no `modifies` clause, so the inputs, and the caller's arguments, are left untouched. |
| Endpoints.VersionedEndpoint | fastapi_serviceutils/app/endpoints/__init__.py:51-74 | One iteration builds a new endpoint from the definition, including its route. `kwargs.update` changes only `route` and `version` in the argument map. |
| Endpoints.NewRoute | fastapi_serviceutils/app/endpoints/__init__.py:64-73 | The new route of one endpoint. Its meaning is stated by `Endpoints.VersionedRoute`, `Endpoints.LatestRoute`, `Endpoints.LatestReplacesEveryOccurrence` and `Endpoints.NewRouteIgnoresCallerRouteAndVersion`. |
| Endpoints.SourceRoute | fastapi_serviceutils/app/endpoints/__init__.py:51-73 | `NewRoute` applied to the definition's own route and version, read from the `Endpoint` or from the module's `ENDPOINT` and `version`. |
| Endpoints.SameExtraArgsFormat | fastapi_serviceutils/app/endpoints/__init__.py:44-71 | Argument maps that agree outside `route` and `version` format every template alike, whatever an earlier iteration left there. |
| Endpoints.NewRouteIgnoresCallerRouteAndVersion | fastapi_serviceutils/app/endpoints/__init__.py:71-73 | The caller's own `route` and `version` arguments never affect the new route, because `kwargs.update` overrides them. |
| Endpoints.VersionedRoute | fastapi_serviceutils/app/endpoints/__init__.py:69-73 | For a version other than `latest`, the template `'<prefix>{version}{route}'` gives prefix, then version, then the definition's route. |
| Endpoints.LatestRoute | fastapi_serviceutils/app/endpoints/__init__.py:64-68 | For `latest` with template `'{route}'`, the definition's version inside its route becomes `latest`. |
| Endpoints.LatestReplacesEveryOccurrence | fastapi_serviceutils/app/endpoints/__init__.py:64-68 | For `latest`, both occurrences of the version in a route that holds it twice are replaced, not just the first. |
| Endpoints.LatestOfVersioned | tests/endpoints_test.py:6-28 | Versioning `/api/{version}{route}` with `v2`, then making the result `latest` with `{route}`, gives `/api/latest` followed by the route. |
| Endpoints.Defaults | fastapi_serviceutils/app/endpoints/__init__.py:96-102 | One default endpoint per known name, in order: the shared `alive` or `config` object. |
| Endpoints.AddDefaultEndpoints | fastapi_serviceutils/app/endpoints/__init__.py:78-105 | The caller's list keeps its original items, followed by one shared default endpoint per name up to the first unknown one. The shared `alive` or `config` endpoint is tagged `['status']` once its name is reached, and keeps its old tags otherwise. The result is:<br>- the same list when every name is known;<br>- otherwise a lookup error naming the first unknown name. |
| Endpoints.AddDefaultEndpoint | fastapi_serviceutils/app/endpoints/__init__.py:102-104 | One iteration sets the shared endpoint's tags to `['status']` and appends that same object, changing nothing else. |
| Endpoints.DefaultsTagged | fastapi_serviceutils/app/endpoints/__init__.py:101-104 | After a successful call, every appended endpoint carries the tags `['status']`. |
| Endpoints.DefaultsSnoc | fastapi_serviceutils/app/endpoints/__init__.py:101-104 | One more name appends exactly its endpoint. |
| Endpoints.DefaultsConcat | fastapi_serviceutils/app/endpoints/__init__.py:101-104 | Appending for `a` and then for `b` appends the same endpoints as appending for `a + b`. |
| DefaultEndpoints.DefaultRoute | fastapi_serviceutils/default_endpoints/__init__.py:22-31 | `alive` maps to prefix `/api/alive` with the alive router, and `config` to `/api/config` with the config router. |
| DefaultEndpoints.DefaultRoutes | fastapi_serviceutils/default_endpoints/__init__.py:33-34 | One table entry per known name, in order. |
| DefaultEndpoints.AddDefaultEndpoints | fastapi_serviceutils/default_endpoints/__init__.py:13-35 | The caller's list keeps its original items, followed by one entry per name up to the first unknown one. The result is:<br>- that same list when every name is known;<br>- otherwise a lookup error naming the first unknown name. |
| DefaultEndpoints.DefaultRoutesConcat | fastapi_serviceutils/default_endpoints/__init__.py:33-34 | Entries for concatenated name lists are the concatenated entries. |
| DefaultEndpoints.DefaultRoutesRepeat | fastapi_serviceutils/default_endpoints/__init__.py:33-34 | A name listed `n` times is appended `n` times. |
| CreateService.AllowedChars | fastapi_serviceutils/cli/create_service.py:20 | The allowed-character string. Its characters, in any set order, are stated by `CreateService.AllowedCharsAre`. |
| CreateService.AllowedCharsAre | fastapi_serviceutils/cli/create_service.py:20 | `allowed_chars` holds exactly these characters, whatever order the set prints in:<br>- the lower-case letters and the digits;<br>- `_`;<br>- `{`, `}`, `'`, `,` and space. |
| CreateService.CheckName | fastapi_serviceutils/cli/create_service.py:18-36 | An accepted name is returned unchanged. A rejection exits with status 1 and reports the name and the variable name. |
| CreateService.CheckNameCharacterized | fastapi_serviceutils/cli/create_service.py:18-36 | A name is accepted exactly when its characters are all lower-case letters, digits, `_`, `{`, `}`, `'` or `,`, and it does not start with a digit. A rejection blames the characters exactly when one of them is outside that set. |
| CreateService.LowercaseNameAccepted | fastapi_serviceutils/cli/create_service.py:18-36 | A name made of lower-case letters, digits and `_` that does not start with a digit is accepted and returned unchanged. |
| CreateService.LeadingDigitRejected | fastapi_serviceutils/cli/create_service.py:29-35 | A name starting with a digit is rejected with status 1. If its characters are otherwise allowed, the leading digit is the reason. |
| CreateService.ForeignCharacterRejected | fastapi_serviceutils/cli/create_service.py:20-28 | A name holding a space, a hyphen or an upper-case letter is rejected by the character check with status 1. |
| CreateService.SetPunctuationAccepted | fastapi_serviceutils/cli/create_service.py:20-23 | Braces, quotes and commas get through, because they are part of the set's printed text. |
| CreateService.EmptyNameAccepted | fastapi_serviceutils/cli/create_service.py:22-30 | The empty name passes both checks. |
| CreateService.ExampleAccepted | tests/create_service_test.py:13-20 | `fastapi_serviceutils` is accepted. |
| CreateService.ExampleLeadingDigit | tests/create_service_test.py:23-33 | `1fastapi` is rejected with status 1 for its leading digit. |
| CreateService.ExampleHyphen | tests/create_service_test.py:23-33 | `pathlib-2` is rejected with status 1 by the character check. |
| CreateService.CreateContext | fastapi_serviceutils/cli/create_service.py:118-128 | The context has the single key `cookiecutter`, which holds exactly the keys `service_name`, `service_port`, `author`, `author_email` and `endpoint`. |
| CreateService.ContextRoundTrip | fastapi_serviceutils/cli/create_service.py:120-128 | Every parameter is copied verbatim: reading the context back gives the parameters again. |
| CreateService.ContextIgnoresOutputDir | fastapi_serviceutils/cli/create_service.py:118-128 | The output directory does not reach the context. |
| CreateService.ContextInjective | fastapi_serviceutils/cli/create_service.py:120-128 | Parameters that differ in any template value give different contexts. |

## Left out

- `collect_config_definition` and YAML loading are not modelled. The configuration enters the model as a tree that is already parsed.
- The environment is handled as a value:
  - `os.environ` is the parameter `env`;
  - reading `os.environ` is not modelled.
- ConfigModel.ParseObj: checks only the shape, plus that every `List[str]` field holds a list. It does not model pydantic's other leaf-type validation and coercion:
  - an `int` or `bool` field is not checked, so a string that pydantic rejects (`abc` for `development_port`, `maybe` for `use_prometheus`) is accepted;
  - a string that pydantic coerces (`"8080"` for `development_port` becomes the integer 8080) is kept as a string;
  - the items of a list and the values of `str` fields are not checked or coerced;
  - pydantic's full error list is not modelled, since only the first failing section, in declaration order, is reported;
  - model objects passed where a dict is expected are not modelled.
- ConfigModel.ParseObjKeepsFields: in the source, a leaf that pydantic coerces (a string for an `int` field, a number for a `str` field) comes back converted, not unchanged.
- ConfigModel.TypedFieldWrite: covers the eleven `str` fields only. For the five `List[str]` fields, re-validation fails (`ConfigModel.TypedListFieldRejected`). For `development_port` and `use_prometheus`, the outcome depends on pydantic's coercion, which is not modelled.
- ConfigModel.TypedOverlayOnFields: covers variables that name `str` fields only, for the same reason.
- ConfigModel.UpdateConfig: the `model` argument is always `Config`. That is the only model the repository passes.
- Scalars: floats and other YAML scalar types are not modelled, and neither are environment values other than strings.
- `dict.update` edge cases are not modelled. `dict.update` accepts any value it can read as an iterable of key/value pairs as an intermediate value (an empty string or list, `["ab"]`, a list of pairs). The model treats every non-mapping intermediate as an error.
- Case mapping covers ASCII only. `str.lower` and `str.upper` leave every other character as it is, so full Unicode case mapping is left out.
- `str.format` is modelled partly:
  - the templates are modelled as literals and named fields, already parsed;
  - format specs, conversions, positional fields, attribute or index access and brace escapes are left out;
  - template arguments are strings.
- Endpoints.AddDefaultEndpoints: requires the shared `alive` and `config` endpoints to be two distinct objects, as the two modules' `ENDPOINT` constants are.
- DefaultEndpoints.AddDefaultEndpoints: in the dict variant, the entries are values. Sharing one dict object when a name appears twice is therefore not observable.
- ServiceConfig.OverlayIdempotent: states idempotence only when the second run does not raise. Unconditional idempotence does not hold (`ServiceConfig.OverlayNotIdempotent`).
- CreateService.AllowedChars: lists the letters of the set alphabetically. Python's set order depends on string hashing, so the model does not fix it; every property is stated so that it does not depend on this order (`CreateService.AllowedCharsAre`).
- CreateService.CheckName: does not model the text printed before `sys.exit(1)`, nor the removal of `assert` statements under `python -O`.
- Not modelled, because these parts are I/O, framework wiring or third-party code:
  - `make_app` and the router, middleware and apidoc registration;
  - logging;
  - external services and databases;
  - exception handlers;
  - endpoint handlers;
  - `create_request_id`, which depends on Python's randomised `hash()`;
  - the CLI's `argparse`, cookiecutter and file-system steps (`_build_arguments`, `_create_service_folder`, `main`).
- A `None` suffix list is modelled as the empty list. `if env_vars:` skips both alike (`ConfigModel.UpdateConfig` checks `|envVars| > 0`).
