# yii2-sentry request scrubbing, modelled in Dafny

The yii2-sentry bridge attaches a description of the current web request to
every monitoring event it sends. It also scrubs personal data out of that
description. This project models that scrubbing logic of the `Integration`
class and proves what it promises:

- `processHeaders` drops the headers named in `stripHeaders`. It replaces the
  value of the headers named in `piiHeaders` with `piiReplaceText`. Names are
  compared in lower case.
- `removeKeysFromArrayRecursively` masks body fields in place. It follows a
  path specification that mixes field names (a leaf to mask when it is set)
  and `'field' => [...]` entries (descend into that sub-array).
- `applyToEvent` builds the request record (url, method, query string, env,
  cookies, headers, body) and writes it into the event. It does nothing for a
  console invocation. It branches on `send_default_pii` and on the body
  allow-list. It masks the decoded body of the routes listed in
  `piiBodyFields`.
- The global event processor of `setupOnce` enriches the event only when the
  Integration is registered.

Files:

- `values.dfy` (module `Values`): PHP values and ordered arrays. `Put` is PHP's
  `$a[$k] = $v`. `IsSet` is `isset`. `Lower` is `strtolower` as PHP 8.2 and later
  define it (ASCII only), which earlier versions match under the C locale.
- `config.dfy` (module `Config`): the redaction rule set, its defaults, and
  the path-specification datatype.
- `headers.dfy` (module `Headers`): the header filter. `ProcessHeaders` is the
  loop. `Processed` is the fold it computes. The lemmas state the filter's
  guarantees about `Processed`.
- `masking.dfy` (module `Masking`): the recursive masking. `RemoveKeysFromArrayRecursively`
  is the loop and the recursion. `Masked` is the fold it computes, with
  `None` where PHP raises a TypeError.
- `enricher.dfy` (module `Enricher`): the request and event records, the
  `Event` class whose fields are updated in place, `ApplyToEvent`, the
  registration-gated `ProcessEvent`, and the lemmas about the enriched event.

Inputs taken as given: the Yii request is a `Request` record. It holds the
results of `getMethod`, `getUrl`, `getQueryString`, `getHeaders()->toArray()`,
`has`/`get('REMOTE_ADDR')`, `getCookies`, `getRawBody`, `getBodyParams` and
`requestedAction->getUniqueId()`. `send_default_pii` and the hub's "integration
registered" answer are boolean parameters.

## Model

| member | source | states |
|---|---|---|
| Values.Put | src/Integration.php:165-167 | array assignment: the key then maps to the new value; other keys are unaffected; an existing key keeps its position; a new key is appended; duplicate-freedom is kept |
| Config.Placeholder | src/Integration.php:53-58 | the replacement is never an array; it is null exactly when `piiReplaceText` is null |
| Headers.ProcessHeaders | src/Integration.php:153-172 | the loop with its `continue` computes `Processed`, the fold of the per-header step over all headers |
| Headers.ProcessedIsRedacted | src/Integration.php:155-171 | no output name has a lower-cased form in `stripHeaders` (stripping wins over masking); every output name in `piiHeaders` maps to the placeholder; the output has no duplicate names |
| Headers.ProcessedKeys | src/Integration.php:157-161 | a name is in the output if and only if it is an input name that is not stripped |
| Headers.ProcessedKeepsValues | src/Integration.php:166-168 | every surviving non-personal header is one of the input pairs, with its spelling and value unchanged |
| Headers.ProcessedOrder | src/Integration.php:155-171 | for a duplicate-free input, the output names are exactly the unstripped input names, in input order |
| Headers.ProcessedLookup | src/Integration.php:157-169 | for a duplicate-free input, each name maps to nothing (stripped or absent), to the placeholder (personal), or to its original value |
| Headers.RedactedIsFixedPoint | src/Integration.php:153-172 | a duplicate-free array that is already redacted passes the filter unchanged |
| Headers.ProcessedIdempotent | src/Integration.php:153-172 | filtering the filter's output gives the same output |
| Headers.DefaultHidesCookiesAndCredentials | src/Integration.php:22-33 | with the default rules, no `cookie`/`set-cookie` header of any spelling is left, and `authorization` reads `[Filtered PII]` |
| Masking.Masked | src/Integration.php:174-185 | when masking succeeds, the array keeps its key list (names and order) |
| Masking.MaskedItem | src/Integration.php:177-183 | one spec entry keeps the key list of the array it succeeds on |
| Masking.RemoveKeysFromArrayRecursively | src/Integration.php:174-185 | the loop with its recursive by-reference call computes `Masked` whenever PHP would not raise |
| Masking.MaskedAppend | src/Integration.php:176-184 | applying spec `a` and then spec `b` is applying `a + b` |
| Masking.ItemEffect | src/Integration.php:177-183 | one entry changes only the field it names; a leaf writes the placeholder only over a set field; a nested entry requires an array field and leaves one |
| Masking.UnsetUntouched | src/Integration.php:180-182 | an absent or null field is never created or changed |
| Masking.UnnamedUntouched | src/Integration.php:176-184 | a field that no entry names keeps its value |
| Masking.LeafMasked | src/Integration.php:180-182 | a set field named by a leaf ends up holding the placeholder; a set field that no leaf names stays set |
| Masking.NestMasked | src/Integration.php:177-178 | a field named by a single nested entry was an array and becomes that array masked by the entry's sub-spec |
| Masking.UntouchedAtAnyDepth | src/Integration.php:176-184 | a field at any depth that the spec does not reach keeps its value |
| Masking.CardNumberExample | src/Integration.php:176-184 | spec `card => [number]` on `{card: {number: 4111, cvv: 123}}` masks `number` and leaves `cvv` |
| Masking.FlatLeafStaysAtTop | src/Integration.php:177-182 | the flat spec `'card' => 'number'` is a top-level leaf `number`; on the same body it changes nothing |
| Enricher.ApplyToEvent | src/Integration.php:86-146 | the event's request, extra data and user IP become `Enriched` of the old ones |
| Enricher.ProcessEvent | src/Integration.php:70-83 | the same event is returned; it is enriched if the Integration is registered, and left as it was otherwise, for every request |
| Enricher.ConsoleRequestUnchanged | src/Integration.php:90-93 | a console request leaves request, extra data and user IP unmodified |
| Enricher.RecordsRequestLine | src/Integration.php:95-101 | a web request always records url, method and query string |
| Enricher.WithoutPiiHeadersAreRedacted | src/Integration.php:119-121 | PII sending off: the headers are the filtered input headers, therefore redacted, with original values and input order; no cookies, env or user IP are recorded |
| Enricher.WithPiiEverythingAttached | src/Integration.php:105-118 | PII sending on: raw headers and cookies are attached; `env.REMOTE_ADDR` exists exactly when the header does; the user IP is filled only when it was null and the header exists |
| Enricher.BodyCapture | src/Integration.php:123-141 | body data and `decodedParams` exist exactly for an allow-listed method with a non-empty raw body; the data is the fixed notice when the body is redacted, and the raw body with unmasked params otherwise |
| Enricher.RedactedBodyParams | src/Integration.php:130-133 | a redacted body keeps its field names; set leaf fields hold the placeholder; absent or null fields stay so; unreached fields at any depth are unchanged |
| Enricher.DefaultGetOmitsBody | src/Integration.php:124-126 | under any rules whose method allow-list is the default one, a GET request records no body and leaves the extra data alone, whatever the redacted routes |

## Left out

- `src/Component.php` is not part of this model. It configures the monitoring client, instantiates integrations from class names, and opens and finishes transactions and spans through framework event handlers. All of that is calls into SDK objects.
- How the global processor is registered, how the current hub and client are looked up, and the `$this->options ?? $client->getOptions()` fallback. The model takes the registration answer and `send_default_pii` as inputs.
- How Yii produces the request values: the header and cookie collections, body decoding, and the requested action. They are inputs. `remoteAddr` is given on its own and is not derived from the header array.
- The `isConsoleRequest` test itself has no effect on the event. A body-bearing web request with no resolved action makes `requestedAction->getUniqueId()` fail on null; the route id is an input here, so that failure is not modelled.
- PHP's coercion of numeric-string array keys to integers. All keys are strings.
- Scalars other than strings: numbers and booleans are represented by `Str`, since the code only tells null, array and other values apart.
- Masking.RemoveKeysFromArrayRecursively: the TypeError that PHP raises for a nested spec entry over a missing or non-array field gives `Masked` the result None. The method and `ApplyToEvent` require that it does not happen (`Maskable`). A spec entry with an integer key and an array value is not representable in `PathItem`; PHP raises a TypeError for it too.
- The by-reference `$array` is modelled as a value passed in and returned. PHP arrays are copy-on-write values, so this loses no aliasing.
- Sentry's `Event` is reduced to the three parts the enricher touches: the request, the extra data (which `setExtra` replaces as a whole) and the user IP. The cookie collection object is modelled as an ordered array.
