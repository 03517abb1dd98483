# Cloud helper logic: BigQuery load configuration and EC2 metadata credentials

This project models the two pieces of decision logic in a small collection of cloud helper
scripts and proves properties of them in Dafny.

- **BigQuery load-job configuration** (`GCP/gbq.py`). `_build_bq_load_job_config` turns the
  optional partition field, clustering fields, create disposition and write disposition into
  either no configuration or a keyed record (`Gbq.LoadJobConfig`; `Gbq.BuildLoadJobConfig`
  fills the map step by step as the source does). `load_dataframe_to_bq` then turns its
  keyword arguments into the arguments of the `to_gbq` call (`Gbq.ToGbqCallFor`):
  - the dotted destination name;
  - the configuration wrapped under `"load"` only when it is a non-empty map;
  - the schema, only when one is given.

  Python truthiness is explicit: `Wrappers.Present` holds of an optional string or list only
  when it is present and non-empty.
- **EC2 instance-metadata (IMDS) credential resolver** (`aws/imds.py`).
  - The IMDSv2 token fetch never fails; it yields `None` instead (`Imds.ImdsToken`).
  - The metadata URL strips the leading '/' characters of the path. The token header is sent
    only for a non-empty token (`Imds.MetadataHeaders`, `Imds.BuildMetadataHeaders`).
  - The role listing is parsed into the stripped non-blank lines (`Imds.RoleNames`).
  - Each role's credentials are fetched and decoded (`Imds.RoleCredentials`).
  - `boto3_session_from_access_key_id` scans the roles in listed order until the first
    matching credential set (`Imds.ScanRoles`, `Imds.SessionFromAccessKeyId`). A match needs
    the requested `AccessKeyId` and `Code == "Success"`. A failed fetch or decode ends the scan
    with that error. Without a match, the scan fails with an error naming the key.
  - The HTTP service and the JSON decoder are oracle functions held in an `Imds.Env` record.
    The session is a plain record.

The Python string operations the resolver depends on are modelled in `PyText`, with Python's
own sets of characters:
- `str.strip()` uses the whitespace set of `str.isspace`;
- `str.lstrip('/')`;
- `str.splitlines()`, with its line boundaries, where "\r\n" is one boundary.

Files:
- `wrappers.dfy`: `Option`, `Result`, `Present`.
- `pytext.dfy`: the string operations.
- `gbq.dfy`: the BigQuery part.
- `imds.dfy`: the IMDS part.

## Model

| member | source | states |
|---|---|---|
| Gbq.LoadJobConfig | GCP/gbq.py:111-124 | No configuration exactly when partitioning, clustering and write disposition are all absent or empty and the create disposition is "CREATE_IF_NEEDED". Otherwise its keys are among the four names. "timePartitioning" is present iff a partition field is given, and is then {"type": "DAY", "field": field}. "clustering" is present iff clustering fields are given, and is then {"fields": the same list}. "createDisposition" is present iff the create disposition is non-empty, and "writeDisposition" iff a write disposition is given; each is copied verbatim. |
| Gbq.BuildLoadJobConfig | GCP/gbq.py:111-124 | The early return followed by the conditional inserts yields exactly `LoadJobConfig`. |
| Gbq.DefaultCreateDispositionKept | GCP/gbq.py:111-120 | When any other option is given, the default create disposition still appears as "createDisposition": "CREATE_IF_NEEDED". |
| Gbq.DocumentedExample | GCP/gbq.py:103-109 | The documented example with every option used yields the four documented entries. |
| Gbq.CreateNeverAlone | GCP/gbq.py:111-120 | "CREATE_NEVER" on its own yields a configuration holding only that create disposition. |
| Gbq.EmptyCreateDispositionAlone | GCP/gbq.py:111-124 | An empty create disposition on its own yields an empty map, not None. The `to_gbq` call then still gets no configuration. |
| Gbq.ToGbqCallFor | GCP/gbq.py:174-194 | The destination is dataset + "." + table. Project, `if_exists` and location pass through, and the API method is "load_csv". A schema is passed iff one is given and non-empty. The configuration is {"load": cfg} iff the built cfg is a non-empty map, and None otherwise. |
| Gbq.ConfigurationPassedIff | GCP/gbq.py:111-124 | `to_gbq` receives a configuration iff partitioning, clustering or a write disposition is given, or the create disposition is neither empty nor the default. |
| Gbq.DestinationDeterminesTable | GCP/gbq.py:174 | When dataset names hold no '.', the dotted destination determines both the dataset and the table. |
| Gbq.DefaultsPassNothing | GCP/gbq.py:127-140 | With every optional argument at its default, `to_gbq` gets no schema and no configuration, `if_exists` "append" and location "US". |
| Imds.IsOk | aws/imds.py:32-33 | `Response.ok` and `raise_for_status`: a status is ok exactly when it is outside 400-599. |
| Imds.ImdsToken | aws/imds.py:26-36 | The result is the body iff the PUT returns an ok status. It is None on a failing status or a transport error, and never an error. |
| Imds.MetadataHeaders | aws/imds.py:60-62 | The only possible header is the token header. It is present iff the token is present and non-empty, and its value is the token. |
| Imds.BuildMetadataHeaders | aws/imds.py:60-62 | Filling the header dict in place yields exactly `MetadataHeaders`. |
| Imds.MissingTokenFallsBackToV1 | aws/imds.py:60-62 | A None token and an empty token both give a request without headers (IMDSv1). |
| Imds.MetadataUrl | aws/imds.py:64 | The URL starts with the meta-data prefix, and the character right after the prefix, if any, is never '/'. |
| Imds.MetadataUrlShape | aws/imds.py:64 | The URL is the meta-data prefix followed by a suffix of the path that does not start with '/'. Everything of the path before that suffix is '/'. |
| Imds.MetadataUrlIgnoresLeadingSlashes | aws/imds.py:64 | Any run of leading '/' leaves the URL unchanged. |
| Imds.MetadataUrlExample | aws/imds.py:64 | "x", "/x" and "//x" give the same URL. |
| Imds.MetadataUrlStripIdempotent | aws/imds.py:64 | Stripping the leading '/' of an already stripped path changes nothing. |
| Imds.InstanceMetadata | aws/imds.py:64-67 | The result is the body iff the GET returns an ok status. A failing status is an HTTP error with that status, and a transport error is `Unreachable`. |
| Imds.NameOf | aws/imds.py:85 | A blank line contributes nothing. Any other line contributes exactly one name, its stripped text. |
| Imds.NonBlankStripped | aws/imds.py:85 | There are at most as many names as lines. |
| Imds.NonBlankIndices | aws/imds.py:85 | Every position listed is in range and holds a non-blank line. |
| Imds.NonBlankIndicesIncreasing | aws/imds.py:85 | The positions of the non-blank lines come in strictly increasing order. |
| Imds.NonBlankIndicesComplete | aws/imds.py:85 | Every non-blank line's position is among those positions. |
| Imds.NonBlankStrippedByIndex | aws/imds.py:85 | The k-th name is the k-th non-blank line stripped, so line order is kept. |
| Imds.NonBlankStrippedCount | aws/imds.py:85 | The number of names equals the number of non-blank lines. |
| Imds.RoleNamesOf | aws/imds.py:85 | The comprehension over the listing body: the non-blank lines of `splitlines()`, each stripped. Its properties are stated by `Imds.RoleNamesAreNonBlankLines`. |
| Imds.RoleNames | aws/imds.py:84-85 | The listing succeeds iff the metadata fetch succeeds, and a failure passes the fetch's error on. |
| Imds.RoleNamesAreNonBlankLines | aws/imds.py:84-85 | On success there is one name per non-blank line of the listing. Each name is that line stripped, they come in listing order, and each is non-empty without surrounding whitespace. |
| Imds.RoleCredentials | aws/imds.py:111-112 | A failed fetch passes its error on, and an undecodable body is `MalformedPayload`. Otherwise the result is the decoded record of the fetch at "iam/security-credentials/" + role. |
| Imds.Matches | aws/imds.py:145 | A record matches iff its "AccessKeyId" is the string equal to the requested key and its "Code" is the string "Success". A missing key, another key, a non-string value or another code does not match. |
| Imds.SessionOf | aws/imds.py:146-151 | The session copies the key, the secret and the token, whatever JSON value they hold, and takes the caller's region. An absent token becomes None (`JNull`). An absent secret is the `KeyError` case and the only failure. |
| Imds.ScanStep | aws/imds.py:144-151 | A failed fetch or decode stops the scan with its error. A record lets the scan go on iff it does not match. A matching record stops the scan with the session built from it, and a session result only ever comes from a matching record. |
| Imds.NextIffFetchedWithoutMatch | aws/imds.py:144-145 | The scan moves past a role iff that role's record was fetched and decoded but has another key, no key, a non-string key or a code other than "Success". |
| Imds.StopWithSessionMeansMatch | aws/imds.py:145-151 | A scan that ends with a session ended at a matching record. The session carries the requested key, that record's secret and token, and the caller's region. |
| Imds.ScanStopsAtFirstStop | aws/imds.py:143-151 | If every role before role j lets the scan go on and role j stops it, exactly j + 1 fetches were made and the result is what role j stopped it with. |
| Imds.FirstMatchWins | aws/imds.py:143-151 | If every role before role j lets the scan go on and role j's record matches, exactly j + 1 fetches were made and the result is the session built from role j's record. |
| Imds.NoMatchFetchesAll | aws/imds.py:143-153 | If every role lets the scan go on, every role is fetched and the result is the error naming the requested key. |
| Imds.ScanRoles | aws/imds.py:143-153 | The loop's outcome: no more fetches than roles, every role before the last one fetched was passed over, and either every role was passed over and the result names the requested key, or the last role fetched stopped the scan with the result. |
| Imds.SessionFromAccessKeyId | aws/imds.py:140-153 | A failing role listing is returned before any credential fetch. Otherwise the outcome is that of the scan of the listed roles with the best-effort token. |
| PyText.IsSpace | aws/imds.py:85 | The whitespace set of `str.isspace()`, which `str.strip()` removes: U+0009-000D, U+001C-0020, U+0085, U+00A0, U+1680, U+2000-200A, U+2028, U+2029, U+202F, U+205F and U+3000. |
| PyText.IsLineBreak | aws/imds.py:85 | The line-break characters of `str.splitlines()`: U+000A-000D, U+001C-001E, U+0085, U+2028 and U+2029. "\r\n" counts as one boundary through `BreakWidth`. |
| PyText.Strip | aws/imds.py:85 | `str.strip()` is empty iff the string is blank (all whitespace). |
| PyText.StripEnds | aws/imds.py:85 | A non-empty strip begins and ends with a non-whitespace character. |
| PyText.StripIsTrimmedSlice | aws/imds.py:85 | The strip is a slice `s[a..b]` of the string with only whitespace before `a` and after `b`. |
| PyText.StripIdempotent | aws/imds.py:85 | Stripping twice is stripping once. |
| PyText.LStrip | aws/imds.py:64 | `lstrip(chars)` is a suffix of the string. Everything before that suffix is a stripped character, and the suffix does not begin with one. |
| PyText.LStripIdempotent | aws/imds.py:64 | `lstrip` twice is `lstrip` once. |
| PyText.LStripIgnoresPrefix | aws/imds.py:64 | A prefix made only of stripped characters makes no difference to `lstrip`. |
| PyText.SplitLines | aws/imds.py:85 | The empty string, and only it, has no lines. |
| PyText.LineEnds | aws/imds.py:85 | There is one boundary per line of `splitlines()`. |
| PyText.SplitLinesRoundTrip | aws/imds.py:85 | The lines, each followed by its boundary, give back the string. Every line is free of line-break characters. Every boundary is one line-break character or "\r\n", except that the last may be absent after a non-empty last line, and a lone "\r" is never followed by an empty line ended by "\n". |
| PyText.SplitLinesUnique | aws/imds.py:85 | Any split of the string with that shape is the one `splitlines()` gives, with the same boundaries. |
| PyText.SplitLinesKeepsText | aws/imds.py:85 | The lines joined back together are the text with only its line boundaries removed. |
| PyText.LineBreaksAreSpaces | aws/imds.py:85 | Every character that `splitlines()` treats as a line break is whitespace for `isspace()`. |

## Left out

- HTTP transport: `requests.put`/`requests.get` and their timeouts (`IMDS_TIMEOUT`) are the `put` and `get` functions of `Imds.Env`. A response is a status and a body, or a transport error. `ok` and `raise_for_status` are modelled as the status being outside 400-599.
- JSON decoding of the credential document is the `parseCredentials` function of `Imds.Env`. It yields the four fields the resolver reads, each absent or a JSON value told apart only as a string, `null` or anything else (`Imds.Json`). A non-string "AccessKeyId" or "Code" just fails the match. A secret or token of any JSON type is passed on to the session unchanged. `MalformedPayload` stands only for a body `json.loads` rejects, or for a document that is not an object (where `creds.get` would raise).
- `boto3.Session` is the plain record `Imds.Session` of the arguments it would receive.
- `ensure_dataset` and the `to_gbq` call itself are calls into the BigQuery libraries, which are not part of this model. The data frame is not modelled; only the other arguments of `to_gbq` are.
- The module-level example call at the end of `GCP/gbq.py` uses an undefined `df` and is not modelled.
- The comment saying `write_disposition` overrides `if_exists` is not implemented by the code: both are passed through unchanged, and the model does the same.
- `GCP/secretsManager.py`, `aws/secretsManager.py` and `aws/s3bucket.py` are single SDK calls or broken glue and are not part of this model.
- Missing typing imports are not modelled: `List` in `aws/imds.py` and `Dict`/`Any` in `GCP/gbq.py` would raise `NameError` at import time. The model follows the intended logic.
- Gbq.LoadJobConfig: the source's note that no key ever maps to None holds by construction, because the model's `Value` type has no null.
- Gbq.ToGbqCallFor: the schema's dictionaries are carried as `Value`s and are not checked against BigQuery's schema format.
- Python strings are sequences of code points. `PyText` uses the exact character sets of `str.isspace` and `str.splitlines`. Byte decoding of the HTTP body is not modelled.
