# Structural configuration validators, verified in Dafny

This project models the structural validators of Quay's shared configuration
library (`pkg/lib/shared/validators.go`). Before the service starts, a
configuration loader calls these validators once per field. Each validator
returns Go's pair `(bool, ValidationError)`. The model writes that pair as a
`Verdict`. The `ValidationError` record carries `Tags`, `FieldGroup` and
`Message`, and every pass returns the zero record `ValidationError{}`.

Files:

- `wrappers.dfy` (`Wrappers`): `Option` stands for Go's nil-able values. `Result` stands for a `(value, error)` pair.
- `go_strings.dfy` (`GoStrings`): the parts of Go's `strings` package that the validators call. These are `HasPrefix`, `TrimPrefix`, `Join` and `Trim(s, " ")`. Their trimming laws are proved.
- `validation_error.dfy` (`ValidationErrors`): the error record, the zero value, `Verdict`, and the `Conforms` shape every validator keeps. `Conforms` means a pass carries the zero error and a failure names the requested field group.
- `patterns.dfy` (`Patterns`): the two fixed regular expressions, each written twice:
  - as the language the expression denotes (a ghost predicate);
  - as a small deterministic automaton that decides it.

  A lemma proves that the two agree on every string.
- `validators.dfy` (`Validators`): the validators themselves. They come in two forms:
  - The scanning checks are methods. These are at-least-one-of, is-one-of and certificate presence. Each is a `for` loop with an early `break` or `return`, as in the source, with the loop invariants its contract needs.
  - The single-condition checks are functions. These are required string/object, hostname, time pattern and the reachability dispatch.

Decisions worth knowing:

- **Required object.** The object's nil check is modelled on `Option<T>`. `None` covers both a nil interface and a typed nil.
- **Reachability check, external results as inputs.** The check receives everything it needs from outside as parameters:
  - the scheme reported by `url.Parse`, or `None` when parsing reports an error;
  - the TLS configuration builder, as a function of the options;
  - one `connect` function that makes a single attempt (TCP, or TLS with a configuration) and gives the error text when it fails.
- **Reachability check, result.** The result lists the dial attempts that were made, each with its address and its 3-second timeout. This makes "no dial for an unknown scheme" a statement about the result.
- **Unparsable input.** When `url.Parse` fails, the source discards the error and reads the scheme through a nil `*url.URL`. The model returns `NilDereference` for this case.
- **Failure tags can be empty.** A failure does not always carry tags: the at-least-one-of checks pass `fields` through verbatim, so an empty field list gives a failure with no tags. The model follows the code. `UntaggedFailureScenario` shows the case.

## Model

| member | source | states |
|---|---|---|
| `Validators.ValidateRequiredString` | pkg/lib/shared/validators.go:62-78 | Fails exactly when the input is the empty string. The failure has tags `[field]`, the requested field group, and message `field + " is required"`. A pass carries the zero error. |
| `Validators.ValidateRequiredObject` | pkg/lib/shared/validators.go:44-60 | Fails exactly when the object is absent (nil). The failure has tags `[field]`, the field group and `field + " is required"`. A pass carries the zero error. |
| `Validators.RequiredStringIsRequiredObject` | pkg/lib/shared/validators.go:45-77 | The two required checks give identical verdicts once the empty string is read as the absent object. |
| `Validators.ValidateAtLeastOneOfBool` | pkg/lib/shared/validators.go:80-106 | Passes exactly when some element of `inputs` is true, so an empty `inputs` fails. The failure tags are `fields` verbatim, and the message is `"At least one of " + Join(fields, ",") + " must be enabled"`. A pass carries the zero error. |
| `Validators.ValidateAtLeastOneOfString` | pkg/lib/shared/validators.go:108-134 | Passes exactly when some element of `inputs` is non-empty, so an empty `inputs` fails. The failure tags are `fields` verbatim, and the message is `"... must be present"`. A pass carries the zero error. |
| `Validators.ValidateIsOneOfString` | pkg/lib/shared/validators.go:159-184 | Passes exactly when `input` is one of `options`, so an empty `options` fails. The failure has tags `[field]` and message `field + " must be one of " + Join(options, ",") + "."`. |
| `Validators.ValidateIsHostname` | pkg/lib/shared/validators.go:212-230 | Passes exactly when the input, with spaces cut from both ends, is in the language of `^[a-zA-Z-0-9\.]+(:[0-9]+)?$`. That language is one or more letters, digits, `-` or `.`, then optionally `:` and one or more digits. The failure has message `field + " must be of type Hostname"`. |
| `Validators.BlankIsNotHostname` | pkg/lib/shared/validators.go:215-220 | An empty input or an input of spaces only is rejected. |
| `Validators.TwoColonsAreNotHostname` | pkg/lib/shared/validators.go:219-220 | A trimmed input with two colons is rejected, wherever they stand. |
| `Validators.HostnameIgnoresSurroundingSpaces` | pkg/lib/shared/validators.go:215-220 | Leading and trailing spaces around an unpadded string do not change the verdict. The verdict is the string's own membership in the hostname language. |
| `Validators.ValidateTimePattern` | pkg/lib/shared/validators.go:308-325 | Passes exactly when the whole input is in the language of `^[0-9]+(w|m|d|h|s)$`, i.e. one or more digits followed by one unit letter. The failure has tags `[field]` and the message quoting the pattern. |
| `Validators.TimePatternShape` | pkg/lib/shared/validators.go:311-315 | Digits plus a unit pass exactly when there is at least one digit. Digits alone fail (missing unit). Anything after the unit fails (trailing character). |
| `Validators.FirstMissing` | pkg/lib/shared/validators.go:341-352 | The position of the first required name that is not a key of the certificate set: every earlier name is a key and that one is not. When every name is a key, the position is the length of the list. |
| `Validators.ValidateCertsPresent` | pkg/lib/shared/validators.go:327-356 | A nil certificate set fails whatever is required, even an empty list. That failure has tags `["Certificates"]` and message `"Certificates are required for SSL but are not present"`. For a present set the check passes exactly when every required name is a key. Otherwise the message names the first missing name in list order: `"Certificate " + name + " is required for " + fgName + " ."`. |
| `Validators.DialAddress` | pkg/lib/shared/validators.go:239-241 | The dial address is a suffix of the input. When the input has neither an `https://` nor an `http://` prefix, the address is the input unchanged. |
| `Validators.DialAddressOfUrl` | pkg/lib/shared/validators.go:240-241 | `https://host` and `http://host` are both dialled at `host`. |
| `Validators.DialAddressStripsBoth` | pkg/lib/shared/validators.go:240-241 | `https://http://host` loses both prefixes and is dialled at `host`. |
| `Validators.DialAddressStripsOnce` | pkg/lib/shared/validators.go:240-241 | `http://https://host` loses only `http://`, because `https://` is tried before `http://`. |
| `Validators.ValidateHostIsReachable` | pkg/lib/shared/validators.go:232-289 | An unparsable input is a nil dereference. A scheme other than `http`/`https` passes with no dial. `http` makes one TCP dial of `DialAddress(input)` with a 3-second timeout. That dial fails with the dial error alone. `https` builds the TLS configuration first. A configuration error fails with that error alone and no dial. Otherwise `https` makes one TLS dial, which fails with `"Cannot reach " + input + ". Error: " + e`. Failures carry tags `[field]`, and every pass carries the zero error. |
| `Validators.UnknownSchemePassesUndialled` | pkg/lib/shared/validators.go:247-287 | For a scheme other than `http`/`https`, the result is a pass with no dial attempts, whatever the network would answer. |
| `Patterns.MatchesHostnameIsLanguage` | pkg/lib/shared/validators.go:219-220 | The automaton used for the hostname expression accepts exactly the strings of its language. |
| `Patterns.HostnameHasOneColonAtMost` | pkg/lib/shared/validators.go:219 | A string the hostname expression accepts has at most one colon. |
| `Patterns.MatchesTimePatternIsLanguage` | pkg/lib/shared/validators.go:311-315 | The automaton used for the time expression accepts exactly the strings of its language. |
| `GoStrings.TrimPrefix` | pkg/lib/shared/validators.go:240-241 | When `s` starts with the prefix, prefix + result is `s`. Otherwise the result is `s` unchanged. |
| `GoStrings.TrimPrefixOfConcat` | pkg/lib/shared/validators.go:240-241 | Removing a prefix undoes prepending it. |
| `GoStrings.TrimSpaces` | pkg/lib/shared/validators.go:216 | The result neither starts nor ends with a space. It is a slice of the input with only spaces before and after it. |
| `GoStrings.TrimSpacesOfPadded` | pkg/lib/shared/validators.go:216 | Trimming spaces from an unpadded string surrounded by spaces gives back exactly that string. |
| `GoStrings.AllSpacesTrimToEmpty` | pkg/lib/shared/validators.go:216 | An input of spaces only trims to the empty string. |

## Left out

- `ValidateGitHubOAuth` (lines 20-42): a live HTTP request through the process-wide default client; network I/O.
- `ValidateRedisConnection` (lines 137-157): a Redis client ping with a context timeout; network I/O through a foreign library.
- `ValidateFileExists` (lines 292-306): an `os.Stat` call; filesystem I/O.
- `ValidateIsURL` (lines 187-210): its whole behaviour is Go's `net/url` parsers, which are not part of this model.
- `ValidateCertPairWithHostname` (lines 359-392): key-pair loading, certificate parsing, `net.SplitHostPort` and hostname verification are all foreign cryptographic primitives and parsers.
- Validators.ValidateHostIsReachable: the dials, the TLS configuration builder `GetTlsConfig` and `url.Parse` are parameters, not behaviour. The model records each dial attempt with its 3-second timeout. It does not model the connection itself, the elapsed time, or the fact that a successful connection is never closed.
- Validators.ValidateRequiredObject: the source tests for nil through reflection. Reflection panics when it is handed a non-nil value of a kind that cannot be nil, such as a plain string or struct. The model takes only nil-able values (`Option`), so that panic is not modelled.
- Go's nil slice and empty slice are both the empty sequence. For example, `Tags` of the zero error and `Tags` set to an empty `fields` slice are not distinguished.
- Go strings are UTF-8 bytes and the model's are sequences of characters. The trim cut set and both regular-expression classes are ASCII, so a non-ASCII character is kept by the trim and rejected by the expressions in both.
- No part of the library runs concurrently, and it has no shared state, so nothing is modelled for that.
