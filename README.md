# B12 application submission — Dafny model

The script `b12_application_submission.py` sends one signed JSON application
to `https://b12.io/apply/submission`. It resolves five values from the process
environment (it reads up to nine variables in all, `SIGNING_SECRET` among
them). The run link comes from `ACTION_RUN_LINK`, or else is built from
the GitHub Actions variables `GITHUB_SERVER_URL`, `GITHUB_REPOSITORY` and
`GITHUB_RUN_ID`. It adds a UTC timestamp and serialises the six-key payload
with sorted keys and compact separators. It signs that text with HMAC-SHA256,
keyed by `SIGNING_SECRET` or a built-in default. It POSTs it once and then
reads a `receipt` out of the answer.

This project models the script's decision logic as pure functions:

- `wrappers.dfy`: module `Wrappers`. The `Result` type stands in for raised
  errors, and `Option` for values that may be missing.
- `pystr.dfy`: module `PyStr`. This is the Python string behaviour the script
  relies on. `IsSpace` is the exact set of characters for which
  `str.isspace()` holds. `Strip` is `str.strip()`, written as the forward and
  backward scans CPython makes. `Less` is Python's `<` on `str`.
- `sorted_keys.dfy`: module `SortedKeys`. This is the key order of
  `json.dumps(..., sort_keys=True)`. A set of keys is listed ascending, and
  that listing is proved to be the only strictly ascending one.
- `submission.dfy`: module `Submission`. It holds `required_env`,
  `build_action_run_link` and `main`. The environment is a
  `map<string, string>` and the timestamp is an input string. The
  serialiser, the HMAC and the HTTP POST are the three functions of an
  `Effects` value. `Run` maps an environment, a timestamp and an `Effects`
  value to an `Outcome`:
  - `Misconfigured`: a `ValueError` raised before any request is built.
  - `Accepted`: the receipt is printed and the exit status is 0.
  - `InvalidResponse`: a `ValueError` raised after a 200 answer.
  - `Rejected`: the status and body are printed, then `SystemExit(1)`.

The script checks only the five values taken from the environment; the clock
reading is used as it is, so `timestamp` is passed through unchecked.

## Model

| member | source | states |
|---|---|---|
| `PyStr.IsSpace` | b12_application_submission.py:10 | the whitespace `strip` removes is exactly the 29 code points of Python's `str.isspace()`, listed one by one |
| `PyStr.SkipSpaceForward` | b12_application_submission.py:10 | the forward scan of `strip` stops at the first non-whitespace character, and everything it skipped is whitespace |
| `PyStr.SkipSpaceBackward` | b12_application_submission.py:10 | the backward scan of `strip` stops after the last non-whitespace character, never below the start, and everything it skipped is whitespace |
| `PyStr.Strip` | b12_application_submission.py:10 | the stripped value has no whitespace at either end; it is empty exactly when the input is all whitespace |
| `PyStr.StripSlice` | b12_application_submission.py:10 | the stripped value is a slice of the input, and only whitespace lies outside that slice |
| `PyStr.StripOfPadded` | b12_application_submission.py:10 | a trimmed value between two whitespace margins strips to itself, so the two properties above determine `strip` uniquely |
| `PyStr.StripIdempotent` | b12_application_submission.py:10 | stripping twice gives the same as stripping once |
| `PyStr.LessCharacterised` | b12_application_submission.py:45 | Python's `<` on `str` holds exactly when the first string is a proper prefix of the second, or at the first position where they differ it has the smaller code point |
| `PyStr.LessStep` | b12_application_submission.py:45 | with equal first characters, the comparison is decided by the tails |
| `PyStr.LessTotal` | b12_application_submission.py:45 | Python's string order puts any two distinct keys one way or the other, so sorting keys is well defined |
| `PyStr.LessTransitive` | b12_application_submission.py:45 | Python's string order is transitive |
| `SortedKeys.LeastExists` | b12_application_submission.py:45 | every non-empty set of keys has a least key |
| `SortedKeys.Sorted` | b12_application_submission.py:45 | the sorted key list holds every key exactly once, in strictly ascending order |
| `SortedKeys.SortedUnique` | b12_application_submission.py:45 | two strictly ascending lists of the same keys are equal, so the sorted order does not depend on insertion order |
| `Submission.Getenv` | b12_application_submission.py:10-23 | `os.getenv` with a default: the variable's value whenever it is set, even if empty, and the default only when it is not set |
| `Submission.ErrorMessage` | b12_application_submission.py:9-30 | the two `ValueError` texts; each starts with `Missing ` |
| `Submission.ErrorMessageInjective` | b12_application_submission.py:9-30 | distinct errors have distinct texts, so a message identifies the error and the missing variable |
| `Submission.ErrorMessageNamesVariables` | b12_application_submission.py:9-30 | the missing-variable message names the variable; the missing-context message names `ACTION_RUN_LINK` and all three GitHub variables |
| `Submission.RequiredEnv` | b12_application_submission.py:9-13 | succeeds exactly when the variable is set to something other than whitespace; the result is that value stripped, non-empty and trimmed; otherwise the error names the variable |
| `Submission.BuildActionRunLink` | b12_application_submission.py:16-30 | succeeds exactly when an explicit link or all three CI variables are non-blank; a non-blank explicit link is returned trimmed; otherwise the result is `server/repository/actions/runs/id` from the trimmed parts; any other case fails with the missing-context error |
| `Submission.RunUrl` | b12_application_submission.py:25 | the link is the server URL, a slash, the repository, `/actions/runs/` and the run id, each found at its own position |
| `Submission.ExplicitLinkWins` | b12_application_submission.py:17-19 | with a non-blank `ACTION_RUN_LINK`, the result is the same whatever the three GitHub variables hold or whether they are set |
| `Submission.SynthesisedLinkShape` | b12_application_submission.py:21-25 | the synthesised link starts with the trimmed server URL and a slash, and ends with `/actions/runs/` and the trimmed run id |
| `Submission.FirstUnsatisfied` | b12_application_submission.py:34-39 | reference definition of the first unresolvable input in resolution order; it finds none exactly when every input is resolvable |
| `Submission.FirstUnsatisfiedIsFirst` | b12_application_submission.py:34-39 | the input it finds cannot be resolved, and every input before it can |
| `Submission.FirstUnsatisfiedInOrder` | b12_application_submission.py:34-39 | spells out the order: run link, then `EMAIL`, `NAME`, `REPOSITORY_LINK`, `RESUME_LINK` |
| `Submission.ResolveFields` | b12_application_submission.py:34-43 | fails exactly when some input is unresolvable, and then with the error of the first one in order; on success every required variable is present and each field is its stripped, non-empty value, with the timestamp as given |
| `Submission.Payload` | b12_application_submission.py:34-43 | the payload has exactly the six keys, each holding its own field |
| `Submission.FromPayload` | b12_application_submission.py:34-43 | reading the fields back succeeds exactly when all six keys are present |
| `Submission.PayloadRoundTrip` | b12_application_submission.py:34-43 | reading the fields back out of a payload gives the fields that built it |
| `Submission.PayloadKeyOrder` | b12_application_submission.py:45 | every payload's keys sort as action_run_link, email, name, repository_link, resume_link, timestamp |
| `Submission.NeighboursAscending` | b12_application_submission.py:45 | each payload key is smaller than the next in Python's string order |
| `Submission.PayloadKeysAscending` | b12_application_submission.py:45 | the listed payload key order is strictly ascending |
| `Submission.CanonicalEntries` | b12_application_submission.py:45 | the serialised entries are exactly the payload's items, one per key, in strictly ascending key order |
| `Submission.EntriesInSorted` | b12_application_submission.py:45 | listing a map's items along a strictly ascending list of all its keys gives every item once, in ascending key order |
| `Submission.PayloadEntries` | b12_application_submission.py:45 | the serialised entries of a payload are the six fields in key order |
| `Submission.SigningSecret` | b12_application_submission.py:49 | the secret is `SIGNING_SECRET` verbatim whenever it is set, and `hello-there-from-b12` only when it is not set |
| `Submission.BlankSecretIsKept` | b12_application_submission.py:49 | a set but blank secret is used as it is, is not replaced by the default, and would be rejected by `required_env` |
| `Submission.SignatureHeader` | b12_application_submission.py:54 | the header value is `sha256=` followed by the signature, and a verifier that strips the prefix reads the signature back |
| `Submission.SignedRequest` | b12_application_submission.py:50-62 | the `requests.post` arguments name the fixed endpoint and a 30-second timeout, and the headers argument holds exactly the two headers; its body is the canonical JSON, and the HMAC of that body under the secret is the signature it carries |
| `Submission.BuildRequest` | b12_application_submission.py:45-62 | the request is the signed POST of the payload's serialised sorted entries, so it carries the fixed endpoint, the 30-second timeout and exactly the `Content-Type: application/json` and `X-Signature-256` headers; the body is what is signed |
| `Submission.Classify` | b12_application_submission.py:64-74 | status 200 with a non-empty receipt is success carrying that receipt; status 200 with a missing or empty receipt is the invalid-response error; any other status is a rejection carrying the status and body; the exit status is 0 only on success |
| `Submission.ExitCode` | b12_application_submission.py:67-74 | the exit status is 0 exactly on success and 1 otherwise, both for `SystemExit(1)` and for an uncaught `ValueError` |
| `Submission.Run` | b12_application_submission.py:33-74 | a run fails before any request exactly when an input is unresolvable, with the first such error; otherwise the request goes to the endpoint with a 30-second timeout and exactly the `Content-Type: application/json` and `X-Signature-256` headers, its body is the canonical payload, its signature verifies under the chosen secret, and its outcome is the classification of the answer; exit status 0 means a non-empty receipt |
| `Submission.NothingSentWhenMisconfigured` | b12_application_submission.py:33-62 | when resolution fails, the outcome does not depend on the serialiser, the HMAC or the network, so nothing is sent |
| `Submission.RequestFixedBeforeSending` | b12_application_submission.py:45-62 | the request sent does not depend on how the network answers |
| `Submission.ExampleResolves` | b12_application_submission.py:34-43 | a complete example configuration resolves to its values as written |
| `Submission.ExampleSubmission` | b12_application_submission.py:33-62 | with that configuration, the request body serialises the six entries in key order and is signed with the default secret |
| `Submission.ExampleMissingRunId` | b12_application_submission.py:16-30 | with the example configuration, no explicit link, and the server URL and repository set but no `GITHUB_RUN_ID`, the run ends with the missing-context error |
| `Submission.ExampleResponses` | b12_application_submission.py:64-74 | a receipt `abc123` is accepted; a `{}` body or an empty receipt is an invalid response; status 500 is rejected with exit status 1 |

## Left out

- Reading the process environment: the environment is a map given as input.
- The clock: `datetime.now(timezone.utc).isoformat(timespec="milliseconds")` with `+00:00` replaced by `Z` becomes the `timestamp` input. Nothing checks its format, and the script does not check it either.
- The bytes `json.dumps` writes: string escaping and `ensure_ascii` are left out. The serialiser is the `dumps` function of `Effects`, applied to the entries already in key order. The model covers only the key set, the key order and the values.
- HMAC-SHA256, the UTF-8 encoding of key and body, and hex encoding: these are the `hmacSha256Hex` function of `Effects`.
- A `SIGNING_SECRET` that is not valid UTF-8: on POSIX, Python decodes such bytes to lone surrogates, and `secret.encode("utf-8")` then raises `UnicodeEncodeError`. This happens after `CANONICAL_JSON` is printed and before any POST, and the exit status is 1. Dafny strings cannot hold surrogates, so the model treats every secret as encodable.
- The headers the HTTP library adds on the wire (User-Agent, Accept, Accept-Encoding, Connection, Content-Length): `Request` holds only the arguments `main` passes to `requests.post`.
- `requests.post`: the `post` function of `Effects`. Timeouts and network exceptions are left out; in the script they escape as uncaught errors.
- Parsing the JSON answer: `Response` carries the `receipt` member as an optional string, plus the raw text. Failures of `response.json()` are not modelled. Neither is a body that is not a JSON object, nor a receipt that is not a string (Python's truthiness of other JSON values).
- Submission.Classify: the invalid-response error carries the raw response text, where the script formats the parsed dictionary into its message.
- All `print` output: the `CANONICAL_JSON:` line, the `RECEIPT:` line and the error status and body lines.
- Python's `str.isspace()` set is written out as a fixed list of code points. It is not derived from the Unicode database of any particular Python version.
