# AppiumServiceBuilder command-line model

A Dafny model of how the Appium Java client's `AppiumServiceBuilder` turns its
configuration into the argument list of the Node.js process that runs the
Appium server, with proofs of what that list looks like.

The builder accumulates a configuration:

- a port, defaulting to 4723;
- a bind address, defaulting to the IPv4 broadcast address `0.0.0.0`;
- an optional log file;
- an optional main script;
- a map from server flags to values;
- optional default capabilities;
- a flag asking for Windows-style quoting of those capabilities.

`createArgs` then emits, in order:

1. the main script;
2. `--port` and the port;
3. `--address` and the address, falling back to the broadcast address when it
   is null or empty;
4. `--log` and the log path, when a log file is set;
5. every server argument, in map iteration order;
6. `--default-capabilities` with the serialised capabilities, when
   capabilities are set.

The modules follow the structure of the class:

- `Wrappers` — `Option` for a Java reference that may be null, and `Result`
  for a value or the exception thrown instead.
- `JavaStrings` — the `java.lang` string operations the builder relies on:
  - `trim` and `endsWith`;
  - `replace("\\", "/")`, the `CharSequence` overload, modelled as the
    replacement of one character by another, which it is for one-character
    arguments;
  - `equalsIgnoreCase`, folding every letter that can match an ASCII one;
  - `String.join`, used as the reference for the comma-separated buffer;
  - `String.valueOf` for a non-negative `int`;
  - `Integer.parseInt`.
- `Capabilities` — the capability map and its Windows-quoted serialisation:
  - the choice between the quoted serialisation and JSON;
  - `score`.
- `ServiceBuilder` — the configuration record, the setters (`usingPort`,
  `withIPAddress`, both `withArgument` overloads, `sanitizeBasePath`, both
  `withCapabilities` overloads) and the three-tier lookup of the main script.
- `CommandLine` — `createArgs` as a reference function (`Args`) and as a
  method that builds the list the way the source does (`CreateArgs`), plus
  lemmas about the shape of the list.

The host is a parameter (`CommandLine.Host`). It supplies:

- the `APPIUM_BINARY_PATH` system property and environment variable;
- file existence;
- the script npm discovery would find;
- `File.getAbsolutePath`;
- whether the platform is Windows;
- the Gson JSON serialiser.

The iteration order of the server-argument `HashMap` is also a parameter. Any
sequence that lists every key exactly once is accepted as that order.

Behaviour of the code worth noting, each proved about the model:

- `--base-path` keeps a value that already ends in `/` as it is, so `foo//`
  stays `foo//`; only a missing slash is added.
- The value-less `withArgument(argument)`, documented at lines 184-188 as
  the way to pass a boolean argument, does not intercept `--port`,
  `--address` or `--log`. Such a flag goes into the argument map with an
  empty value (`ServiceBuilder.WithFlagDoesNotIntercept`), and `--port`
  added that way reaches the command line twice
  (`CommandLine.PortFlagWithoutValueRepeats`).
- Only `chromedriverExecutable`, `keystorePath` and `app` are path
  capabilities. The backslashes of any other capability, such as
  `appPackage`, are kept (`Capabilities.QuotedEntryExamples`).
- The two-argument `withArgument` does not intercept
  `--default-capabilities` either. Given that way, it ends the list with the
  same two tokens as capabilities set through `withCapabilities`, while the
  builder holds no capabilities
  (`CommandLine.CapabilityFlagWithoutCapabilities`). The list ends with that
  flag exactly when capabilities are set only as long as no server
  argument, address or log path spells it
  (`CommandLine.CapabilityFlagIffCapabilities`).

## Model

| member | source | states |
|---|---|---|
| ServiceBuilder.NewBuilder | src/main/java/io/appium/java_client/service/local/AppiumServiceBuilder.java:94-97 | a fresh builder holds port 4723, the IPv4 broadcast address, an empty argument map, no log file, script or capabilities, and quoting switched off |
| ServiceBuilder.WithIPAddress | src/main/java/io/appium/java_client/service/local/AppiumServiceBuilder.java:279-282 | the address is stored exactly as given, null included, and nothing else changes |
| ServiceBuilder.WithLogFile | src/main/java/io/appium/java_client/service/local/AppiumServiceBuilder.java:462-465 | the log file is set to the given path, null clearing it, and nothing else changes |
| ServiceBuilder.WithAppiumJS | src/main/java/io/appium/java_client/service/local/AppiumServiceBuilder.java:274-277 | the main script is set to the given path, null clearing it, and nothing else changes |
| ServiceBuilder.UsingPort | src/main/java/io/appium/java_client/service/local/AppiumServiceBuilder.java:429-432 | a port is accepted exactly when it is non-negative; the port is the only thing that changes, and a negative port fails with the port error |
| ServiceBuilder.SanitizeBasePath | src/main/java/io/appium/java_client/service/local/AppiumServiceBuilder.java:231-238 | null fails; a value that is blank after trimming fails; otherwise the result is the trimmed value, which always ends in `/` and has a slash appended only when the trimmed value lacked one |
| ServiceBuilder.SanitizeBasePathIdempotent | src/main/java/io/appium/java_client/service/local/AppiumServiceBuilder.java:231-238 | sanitising an already sanitised base path returns it unchanged |
| ServiceBuilder.SanitizeBasePathAddsSlash | src/main/java/io/appium/java_client/service/local/AppiumServiceBuilder.java:237 | `foo` becomes `foo/` |
| ServiceBuilder.SanitizeBasePathKeepsSlash | src/main/java/io/appium/java_client/service/local/AppiumServiceBuilder.java:237 | `foo/` stays `foo/` |
| ServiceBuilder.SanitizeBasePathKeepsDoubleSlash | src/main/java/io/appium/java_client/service/local/AppiumServiceBuilder.java:237 | `foo//` stays `foo//`: a doubled slash is not collapsed |
| ServiceBuilder.SanitizeBasePathBlankExample | src/main/java/io/appium/java_client/service/local/AppiumServiceBuilder.java:232-236 | a value of only blanks is refused as a blank base path |
| ServiceBuilder.SanitizeBasePathTrimExample | src/main/java/io/appium/java_client/service/local/AppiumServiceBuilder.java:232-237 | surrounding blanks are trimmed before the slash is added: ` /wd/hub ` becomes `/wd/hub/` |
| ServiceBuilder.WithFlag | src/main/java/io/appium/java_client/service/local/AppiumServiceBuilder.java:192-195 | a flag without value is stored under its key with the empty string; the other keys keep their values and no other field changes |
| ServiceBuilder.WithArgument | src/main/java/io/appium/java_client/service/local/AppiumServiceBuilder.java:206-229 | port flags set the port, and fail unless the value parses as a non-negative 32-bit integer; address flags set the address, null included; log flags set the log file, and fail on null; `--base-path` stores the sanitised value or fails as sanitising does; any other flag stores its value as given. Intercepted flags never touch the argument map, and nothing else changes. A failing port flag fails as malformed when the text does not parse and as negative when it does; a failing log flag fails on null; a failing `--base-path` fails with the sanitising error |
| ServiceBuilder.PortFlagIsUsingPort | src/main/java/io/appium/java_client/service/local/AppiumServiceBuilder.java:209-212 | passing `--port` or `-p` with the decimal text of a port gives the same builder as `usingPort` with that port |
| ServiceBuilder.PortFlagErrors | src/main/java/io/appium/java_client/service/local/AppiumServiceBuilder.java:209-212 | a port flag with a null, empty, sign-only or non-numeric value, or one past the 32-bit maximum, fails as malformed; `-1` parses and is then refused as negative |
| ServiceBuilder.WithArgumentKeepsInterception | src/main/java/io/appium/java_client/service/local/AppiumServiceBuilder.java:206-229 | a fresh builder has no intercepted flag in its argument map; neither the two-argument `withArgument` nor `usingPort`, `withIPAddress`, `withLogFile`, `withAppiumJS` or `withCapabilities` adds one |
| ServiceBuilder.WithFlagDoesNotIntercept | src/main/java/io/appium/java_client/service/local/AppiumServiceBuilder.java:192-195 | the value-less `withArgument` puts even `--port` into the argument map |
| ServiceBuilder.WithCapabilities | src/main/java/io/appium/java_client/service/local/AppiumServiceBuilder.java:246-250 | the call fails with a null dereference exactly when neither stored nor given capabilities exist; otherwise capabilities become set: the given ones (possibly null) merged into the stored ones, or into themselves when none are stored; nothing else changes |
| ServiceBuilder.WithCapabilitiesQuoted | src/main/java/io/appium/java_client/service/local/AppiumServiceBuilder.java:261-265 | the call fails exactly when the one-argument overload would; otherwise the quoting flag is overwritten with the given one, and the capabilities are merged exactly as by the one-argument overload |
| ServiceBuilder.LoadPathFromEnv | src/main/java/io/appium/java_client/service/local/AppiumServiceBuilder.java:284-291 | the system property wins when it is non-empty, then the environment variable; the result is absent exactly when both are null or empty, and never empty |
| ServiceBuilder.ValidatePath | src/main/java/io/appium/java_client/service/local/AppiumServiceBuilder.java:125-134 | a path is accepted exactly when the file exists; otherwise the missing-file error names it |
| ServiceBuilder.ResolveMainScript | src/main/java/io/appium/java_client/service/local/AppiumServiceBuilder.java:293-307 | an explicitly set script is validated; otherwise the path from the environment is validated; only when neither is configured is the discovered script used; a configured path whose file is missing fails instead of falling back |
| ServiceBuilder.ResolveMainScriptPrecedence | src/main/java/io/appium/java_client/service/local/AppiumServiceBuilder.java:293-307 | a script resolved from an explicit or environment path exists; an explicit script makes the environment and discovery irrelevant, and so does a non-empty system property for the environment variable |
| JavaStrings.Trim | src/main/java/io/appium/java_client/service/local/AppiumServiceBuilder.java:232 | the trimmed value is no longer than the original and, when non-empty, neither starts nor ends with a character up to U+0020 |
| JavaStrings.EqualsIgnoreCase | src/main/java/io/appium/java_client/service/local/AppiumServiceBuilder.java:117 | two strings match when they have the same length and each pair of characters is equal or folds to the same upper-case letter |
| JavaStrings.EqualsIgnoreCaseIsEquivalence | src/main/java/io/appium/java_client/service/local/AppiumServiceBuilder.java:117 | matching ignoring case is reflexive, symmetric and transitive, and implies equal length |
| JavaStrings.TrimSpec | src/main/java/io/appium/java_client/service/local/AppiumServiceBuilder.java:232 | `trim` returns the infix of the value between its leading and trailing characters up to U+0020; that infix is empty exactly when every character is such a blank |
| JavaStrings.TrimIdempotent | src/main/java/io/appium/java_client/service/local/AppiumServiceBuilder.java:232 | trimming twice is trimming once |
| JavaStrings.ReplaceChar | src/main/java/io/appium/java_client/service/local/AppiumServiceBuilder.java:327 | every backslash becomes a forward slash, every other character stays in place, and the length is kept |
| JavaStrings.ReplaceCharEliminates | src/main/java/io/appium/java_client/service/local/AppiumServiceBuilder.java:327 | after the replacement no backslash is left, and replacing again changes nothing |
| JavaStrings.ParseInt | src/main/java/io/appium/java_client/service/local/AppiumServiceBuilder.java:211 | a parsed port text is a non-null optional sign followed by at least one digit, and the result lies in the 32-bit signed range; a text of digits, with or without a leading `+` and with leading zeros allowed, is accepted exactly when its value fits and then yields that value; after a `-` it yields the negated value, accepted down to -2147483648 |
| JavaStrings.ParseIntExamples | src/main/java/io/appium/java_client/service/local/AppiumServiceBuilder.java:211 | null, the empty string, a lone sign, a non-digit and `2147483648` are rejected; `-1` is read as -1, `+07` as 7 and `-0` as 0 |
| JavaStrings.NatToString | src/main/java/io/appium/java_client/service/local/AppiumServiceBuilder.java:365 | the port is written as a non-empty string of decimal digits without leading zeros |
| JavaStrings.ParseIntOfNatToString | src/main/java/io/appium/java_client/service/local/AppiumServiceBuilder.java:211 | parsing the decimal text of any port-sized number gives that number back |
| JavaStrings.DigitsValueOfNatToString | src/main/java/io/appium/java_client/service/local/AppiumServiceBuilder.java:365 | the digits written for a number denote that number |
| JavaStrings.NatToStringOfDigitsValue | src/main/java/io/appium/java_client/service/local/AppiumServiceBuilder.java:365 | conversely, a digit string without superfluous leading zeros is exactly what is written for the number it denotes |
| JavaStrings.JoinSnoc | src/main/java/io/appium/java_client/service/local/AppiumServiceBuilder.java:336-339 | appending one more entry to a `, `-joined list adds the separator only when the list was non-empty |
| JavaStrings.JoinEmptyIff | src/main/java/io/appium/java_client/service/local/AppiumServiceBuilder.java:336-339 | a join of non-empty entries is empty exactly when there are no entries, which is why testing the buffer length decides the separator |
| Capabilities.GetCapability | src/main/java/io/appium/java_client/service/local/AppiumServiceBuilder.java:112 | a missing capability reads as null; a capability found is one stored under that key |
| Capabilities.GetCapabilityFinds | src/main/java/io/appium/java_client/service/local/AppiumServiceBuilder.java:112 | in a map with unique keys, looking up a key returns the value stored under it |
| Capabilities.NonNullMembers | src/main/java/io/appium/java_client/service/local/AppiumServiceBuilder.java:318-322 | the serialised entries are exactly the entries whose value is not null |
| Capabilities.NonNullIdempotent | src/main/java/io/appium/java_client/service/local/AppiumServiceBuilder.java:318-322 | dropping null entries twice is dropping them once |
| Capabilities.CapabilitiesToQuotedCmdlineArg | src/main/java/io/appium/java_client/service/local/AppiumServiceBuilder.java:309-343 | the single pass with its non-empty-buffer test yields `{}` for absent capabilities, and otherwise the quoted entries of the non-null capabilities, in map order, separated by `, `, between braces |
| Capabilities.QuotedIgnoresNulls | src/main/java/io/appium/java_client/service/local/AppiumServiceBuilder.java:318-322 | null-valued capabilities leave no trace in the quoted serialisation |
| Capabilities.QuotedEntryParts | src/main/java/io/appium/java_client/service/local/AppiumServiceBuilder.java:324-339 | an entry is the escaped-quoted key and `: `, then the value: the text of a non-string value, or the string between escaped quotes, its backslashes turned into slashes only for a path capability |
| Capabilities.QuotedStringValue | src/main/java/io/appium/java_client/service/local/AppiumServiceBuilder.java:324-330 | a string value is wrapped in escaped quotes; for a path capability it has no backslash left, and every other character is kept in place |
| Capabilities.QuotedPair | src/main/java/io/appium/java_client/service/local/AppiumServiceBuilder.java:335-342 | two non-null capabilities serialise as their two entries, `\"key\": value`, separated by `, `, between braces |
| Capabilities.QuotedEntryExamples | src/main/java/io/appium/java_client/service/local/AppiumServiceBuilder.java:324-339 | concrete entries: a string is quoted, the `app` path gets forward slashes, `appPackage` keeps its backslash, and a non-string value is written unquoted |
| Capabilities.QuotedPathExample | src/main/java/io/appium/java_client/service/local/AppiumServiceBuilder.java:309-343 | the full serialisation of a platform name next to a Windows `app` path |
| Capabilities.DropNullExample | src/main/java/io/appium/java_client/service/local/AppiumServiceBuilder.java:320-322 | a null between two non-null capabilities serialises as if it were absent |
| Capabilities.QuotedNonPathExample | src/main/java/io/appium/java_client/service/local/AppiumServiceBuilder.java:317-342 | a backslash outside a path capability is kept, a null capability is dropped, and a number is written unquoted |
| Capabilities.CapabilitiesToCmdlineArg | src/main/java/io/appium/java_client/service/local/AppiumServiceBuilder.java:345-357 | the quoted serialisation is used exactly when quoting was requested and the host runs Windows; otherwise JSON is used |
| Capabilities.BrowserName | src/main/java/io/appium/java_client/service/local/AppiumServiceBuilder.java:116 | the browser name is the string stored under `browserName`, the `String.valueOf` text of a non-string value stored there, or empty when that capability is absent |
| Capabilities.Score | src/main/java/io/appium/java_client/service/local/AppiumServiceBuilder.java:108-123 | the score lies between 0 and 2; it is 0 exactly when neither a platform name nor a recognised browser is given, and 2 exactly when both are |
| Capabilities.ScoreDependsOnlyOnPlatformAndBrowser | src/main/java/io/appium/java_client/service/local/AppiumServiceBuilder.java:108-123 | two capability sets that agree on `platformName` and `browserName` get the same score |
| Capabilities.ScoreBrowserCase | src/main/java/io/appium/java_client/service/local/AppiumServiceBuilder.java:116-120 | `ANDROID` and `android` score 1, `Chrome` scores 0, and `Safari` next to a platform name scores 2 |
| Capabilities.ScoreBrowserName | src/main/java/io/appium/java_client/service/local/AppiumServiceBuilder.java:116-120 | every browser name that matches `Android` ignoring case scores 1; a name that is not `chrome`, `safari` or `Safari` and does not match `Android` scores 0, so `Chrome` in any other letter case is not recognised |
| Capabilities.ScoreDotlessAndDottedI | src/main/java/io/appium/java_client/service/local/AppiumServiceBuilder.java:117 | `android` spelled with a dotless `ı` or a dotted `İ` for its `i` is recognised too |
| CommandLine.Args | src/main/java/io/appium/java_client/service/local/AppiumServiceBuilder.java:359-399 | the list fails exactly when the main script cannot be resolved, with that error; otherwise it opens with the absolute script path, `--port`, the port, `--address` and the effective address; then come the `--log` pair when a log file is set and every server-argument token; it ends with `--default-capabilities` and the serialised capabilities when capabilities are set; its length accounts for exactly these parts |
| CommandLine.AppendHead | src/main/java/io/appium/java_client/service/local/AppiumServiceBuilder.java:361-377 | the head of the list is the script, port, address and optional log pair, and the address written back is the effective address |
| CommandLine.AppendServerArguments | src/main/java/io/appium/java_client/service/local/AppiumServiceBuilder.java:379-391 | the loop appends exactly the server-argument tokens of the map in iteration order |
| CommandLine.AppendCapabilities | src/main/java/io/appium/java_client/service/local/AppiumServiceBuilder.java:393-396 | the capability pair is appended exactly when capabilities are set, serialised by the quoting loop or by JSON as `CapabilitiesToCmdlineArg` selects |
| CommandLine.CreateArgs | src/main/java/io/appium/java_client/service/local/AppiumServiceBuilder.java:359-399 | the list built token by token equals `Args`; on success the resolved script and the effective address are written back into the builder, and on failure the builder is unchanged |
| CommandLine.EffectiveAddress | src/main/java/io/appium/java_client/service/local/AppiumServiceBuilder.java:367-369 | the address written is never empty: the stored one when it is neither null nor empty, and `0.0.0.0` otherwise |
| CommandLine.EntryTokens | src/main/java/io/appium/java_client/service/local/AppiumServiceBuilder.java:383-390 | an argument with an empty flag or a null value yields no token; otherwise the flag comes first, followed by the value exactly when the value is not empty |
| CommandLine.ArgTokensLength | src/main/java/io/appium/java_client/service/local/AppiumServiceBuilder.java:379-391 | the server arguments yield at most two tokens per entry, and exactly two per entry when every entry has a non-empty flag and a non-empty value |
| CommandLine.ArgTokensEmptyIff | src/main/java/io/appium/java_client/service/local/AppiumServiceBuilder.java:379-391 | no server-argument token is produced exactly when no entry has a non-empty flag with a non-null value |
| CommandLine.ArgsParts | src/main/java/io/appium/java_client/service/local/AppiumServiceBuilder.java:359-399 | with a resolved script, the list is the head, then the server-argument tokens, then the capability pair |
| CommandLine.EntryPlacement | src/main/java/io/appium/java_client/service/local/AppiumServiceBuilder.java:379-391 | an emitting argument's tokens sit contiguously: the flag, then its value unless the value is empty; the next token, if any, is the flag of a later emitting argument |
| CommandLine.ValueFollowsFlag | src/main/java/io/appium/java_client/service/local/AppiumServiceBuilder.java:387-390 | a flag stored with a non-empty value appears immediately followed by that value |
| CommandLine.FlagWithoutValueStandsAlone | src/main/java/io/appium/java_client/service/local/AppiumServiceBuilder.java:383-390 | a flag stored with the empty value appears as a lone token: whatever follows it is another emitting flag, not a value |
| CommandLine.SilentEntryContributesNothing | src/main/java/io/appium/java_client/service/local/AppiumServiceBuilder.java:383-385 | an argument with an empty flag or a null value contributes no token: leaving it out gives the same list |
| CommandLine.ArgTokensPermutation | src/main/java/io/appium/java_client/service/local/AppiumServiceBuilder.java:379-391 | reordering the entries permutes the server-argument tokens |
| CommandLine.ArgTokensOrderIndependent | src/main/java/io/appium/java_client/service/local/AppiumServiceBuilder.java:379-391 | whatever iteration order the map uses, the same tokens come out, each as many times |
| CommandLine.LogFlagIffLogFile | src/main/java/io/appium/java_client/service/local/AppiumServiceBuilder.java:373-377 | when port, address and log flags are kept out of the argument map, `--log` follows the address exactly when a log file is set |
| CommandLine.FlagAloneInArgs | src/main/java/io/appium/java_client/service/local/AppiumServiceBuilder.java:383-396 | in the whole list, a flag stored without value appears after the address and is followed by nothing, by `--default-capabilities`, or by another emitting flag |
| CommandLine.WithFlagEmitsFlagAlone | src/main/java/io/appium/java_client/service/local/AppiumServiceBuilder.java:192-195 | a flag added through the value-less `withArgument` shows up in the list with no value token |
| CommandLine.PortFlagWithoutValueRepeats | src/main/java/io/appium/java_client/service/local/AppiumServiceBuilder.java:192-195 | `--port` added through the value-less `withArgument` appears twice in the list: with the port after the script, and among the server arguments followed by no value: by nothing, by `--default-capabilities` or by another emitting flag |
| CommandLine.CapabilityFlagWithoutCapabilities | src/main/java/io/appium/java_client/service/local/AppiumServiceBuilder.java:224-226 | `--default-capabilities` passed through the two-argument `withArgument` is stored as an ordinary argument, so a builder without capabilities ends its list with that flag and the given value |
| CommandLine.CapabilityFlagIffCapabilities | src/main/java/io/appium/java_client/service/local/AppiumServiceBuilder.java:379-396 | when no server argument, address or log path spells `--default-capabilities`, the next-to-last token is that flag exactly when capabilities are set |
| CommandLine.ArgTokensAvoid | src/main/java/io/appium/java_client/service/local/AppiumServiceBuilder.java:379-391 | a token that is neither a flag nor a value of the server arguments does not occur among their tokens |
| CommandLine.DiscoveryFailureFailsArgs | src/main/java/io/appium/java_client/service/local/AppiumServiceBuilder.java:293-307 | with no script configured, no environment path and a failed npm discovery, the whole list fails with the discovery error |
| CommandLine.ClearedScriptFallsBack | src/main/java/io/appium/java_client/service/local/AppiumServiceBuilder.java:293-307 | after `withAppiumJS(null)` the script is resolved from the environment and discovery alone, as if none had been set |
| CommandLine.ClearedLogFileDropsLogPair | src/main/java/io/appium/java_client/service/local/AppiumServiceBuilder.java:373-377 | after `withLogFile(null)` the list has no `--log` pair: only the head of five tokens, the server-argument tokens and the capability pair remain |
| CommandLine.AddressToken | src/main/java/io/appium/java_client/service/local/AppiumServiceBuilder.java:367-371 | after `withIPAddress`, the fifth token is the given address, or `0.0.0.0` when that is null or empty |
| CommandLine.CreateArgsIsStable | src/main/java/io/appium/java_client/service/local/AppiumServiceBuilder.java:362-371 | building again from the builder `createArgs` leaves behind gives the same list, and leaves the builder as it was |

## Left out

- Finding the main script through npm (`findNpm`, `findBinary`, `findMainScript`, lines 136-164) runs a subprocess and searches `PATH`. Its outcome is the parameter `Host.discoveredMainScript`.
- Locating Node.js (`findDefaultExecutable`, `loadSystemProperties`, lines 166-182 and 401-409) follows the same explicit, environment, search order as the main script, but for the driver executable. It reads a private field by reflection and is not part of the argument list.
- System properties, environment variables, file existence, `File.getAbsolutePath` and `Platform.getCurrent` are host facts. They are fields of `CommandLine.Host`.
- `ServiceBuilder.ValidatePath`: checks the existence of the path as given. The source checks its absolute form, which names the same file.
- Gson serialisation (lines 349-356) is an external library. It is the parameter `Host.toJson`.
- `Capabilities.merge` is Selenium code. It is the parameter `merge` of `ServiceBuilder.WithCapabilities`, which also receives a null argument.
- `ServiceBuilder.WithCapabilitiesQuoted`: when the call fails, the Java builder has already overwritten its quoting flag before the exception; the model returns only the error and no builder.
- HashMap iteration order is unspecified. It is the parameter `order`, constrained only to list every key once.
- `CommandLine.ArgTokensOrderIndependent`: states that two iteration orders give the same tokens as a multiset, not as the same sequence, because the map fixes no order.
- The texts of exception messages are left out. Each failure is an `Error` constructor.
- The `withEnvironment`, `usingDriverExecutable`, `usingAnyFreePort`, `withTimeout` and `createDriverService` members of the class and its base class are left out. So are the base-class port and log-file bookkeeping, beyond the non-negative port check and the stored log file.
- Port 0 means "any free port" (lines 423-424). The base class's `build()`, which is not part of this model, replaces it with a free port before `createArgs` runs, so `CommandLine.Args` writes `--port 0` for port 0.
- `JavaStrings.ParseInt`: accepts ASCII digits only. `Integer.parseInt` also accepts other Unicode decimal digits, which no port text needs.
- `JavaStrings.EqualsIgnoreCase`: folds the ASCII letters and the four other letters Java's case mapping sends to an ASCII one (`ı` and `İ` to `I`, `ſ` to `S`, the Kelvin sign to `K`). Case folding between two non-ASCII letters is left out; it cannot decide a comparison with the ASCII `Android`.
- Selenium's constants are taken as:
  - `Browser.CHROME` matches `chrome`;
  - `Browser.SAFARI` matches `safari` and `Safari`;
  - `MobileBrowserType.ANDROID` is `Android`;
  - the path-capability option names are `chromedriverExecutable`, `keystorePath` and `app`;
  - `getBrowserName` is the text of `browserName`, or the empty string when it is absent.
- A capability value that is neither null nor a `String` is known only through its `String.valueOf` text (`Capabilities.CapValue.Other`).
- A null flag name cannot be expressed: flags are strings. The empty flag, which `createArgs` skips like a null one, is modelled.
- `ServiceBuilder.Builder.port` is a `nat`. Ports only get there through the non-negative check, so the 32-bit range of a parsed port is carried by `ParseInt`, not by the field.
