/**
 * The EC2 instance-metadata (IMDS) credential resolver: fetch a session token,
 * list the IAM roles attached to the instance, fetch each role's temporary
 * credentials in listed order and build a session from the first set whose
 * access key matches the caller's and whose status is "Success".
 *
 * The HTTP transport and the JSON decoder are not modelled: they are oracle
 * functions held in an `Env`.
 */
module Imds {
  import opened Wrappers
  import PyText

  const ImdsBase: string := "http://169.254.169.254"
  const MetadataPrefix: string := ImdsBase + "/latest/meta-data/"
  const TokenUrl: string := ImdsBase + "/latest/api/token"
  const TokenHeader: string := "X-aws-ec2-metadata-token"
  const TokenTtlHeader: string := "X-aws-ec2-metadata-token-ttl-seconds"
  const TokenTtlSeconds: string := "21600"
  const RoleListPath: string := "iam/security-credentials/"
  const SuccessCode: string := "Success"

  /** An HTTP request to the metadata service. */
  datatype Request = Request(url: string, headers: map<string, string>)

  /** What `requests.put`/`requests.get` yield: a response, or a raised `RequestException`. */
  datatype Response = Response(status: int, text: string) | TransportError

  /** A JSON value as the resolver tells them apart: a string, `null`, or anything else. */
  datatype Json = JString(s: string) | JNull | JOther

  /**
   * The fields of a decoded credential document that the resolver reads, each `None`
   * when the document has no such key.
   */
  datatype CredRecord = CredRecord(
    accessKeyId: Option<Json>,
    secretAccessKey: Option<Json>,
    token: Option<Json>,
    code: Option<Json>)

  /**
   * The arguments the resolver hands to `boto3.Session`; Python's `None` is `JNull`, and
   * the secret and the token are passed on whatever JSON value they are.
   */
  datatype Session = Session(
    accessKeyId: string,
    secretAccessKey: Json,
    sessionToken: Json,
    region: Option<string>)

  /** What the Python code raises. */
  datatype ImdsError =
    | HttpError(status: int)                    // raise_for_status
    | Unreachable                               // requests.RequestException
    | MalformedPayload                          // json.loads fails, or the document is no object
    | MissingSecretAccessKey                    // KeyError on creds["SecretAccessKey"]
    | NoMatchingCredentials(accessKeyId: string) // the final RuntimeError

  /** The outside world: the service's answers to PUT and GET, and the JSON decoder. */
  datatype Env = Env(
    put: Request -> Response,
    get: Request -> Response,
    parseCredentials: string -> Option<CredRecord>)

  /** `Response.ok`: `raise_for_status` raises exactly for the statuses 400 to 599. */
  predicate IsOk(status: int)
  {
    !(400 <= status < 600)
  }

  /** The PUT request for an IMDSv2 session token with a six-hour lifetime. */
  const TokenRequest: Request := Request(TokenUrl, map[TokenTtlHeader := TokenTtlSeconds])

  /**
   * `get_imds_token`: the response body on an ok status; `None` on a failing status
   * or a transport error. It never fails: its result is an `Option`, not a `Result`.
   */
  function ImdsToken(put: Request -> Response): (t: Option<string>)
    ensures t.Some? <==> put(TokenRequest).Response? && IsOk(put(TokenRequest).status)
    ensures t.Some? ==> t.value == put(TokenRequest).text
  {
    match put(TokenRequest)
    case TransportError => None
    case Response(status, text) => if IsOk(status) then Some(text) else None
  }

  /** The URL `get_instance_metadata` fetches for `path`. */
  function MetadataUrl(path: string): (url: string)
    ensures |MetadataPrefix| <= |url| && url[..|MetadataPrefix|] == MetadataPrefix
    ensures |url| > |MetadataPrefix| ==> url[|MetadataPrefix|] != '/'
  {
    MetadataPrefix + PyText.LStrip(path, IsSlash)
  }

  /**
   * The URL is the metadata prefix followed by `path` with every leading '/' removed:
   * what follows the prefix is a suffix of `path` that does not start with '/', and
   * everything of `path` before it is '/'.
   */
  lemma {:induction false} MetadataUrlShape(path: string)
    ensures var url := MetadataUrl(path);
      var n := |url| - |MetadataPrefix|;
      && |MetadataPrefix| <= |url| && url[..|MetadataPrefix|] == MetadataPrefix
      && n <= |path| && url[|MetadataPrefix|..] == path[|path| - n..]
      && (n > 0 ==> path[|path| - n] != '/')
      && forall k :: 0 <= k < |path| - n ==> path[k] == '/'
  {
    var rest := PyText.LStrip(path, IsSlash);
    assert MetadataUrl(path)[|MetadataPrefix|..] == rest;
  }

  /** The character `get_instance_metadata` strips from the front of the path. */
  predicate IsSlash(c: char)
  {
    c == '/'
  }

  /** The headers of a metadata GET: the token header, only for a non-empty token. */
  function MetadataHeaders(token: Option<string>): (headers: map<string, string>)
    ensures headers.Keys <= {TokenHeader}
    ensures TokenHeader in headers <==> Present(token)
    ensures TokenHeader in headers ==> headers[TokenHeader] == token.value
  {
    if Present(token) then map[TokenHeader := token.value] else map[]
  }

  /** The headers as `get_instance_metadata` builds them: an empty dict, then one conditional insert. */
  method BuildMetadataHeaders(token: Option<string>) returns (headers: map<string, string>)
    ensures headers == MetadataHeaders(token)
  {
    headers := map[];
    if token.Some? && token.value != "" {
      headers := headers[TokenHeader := token.value];
    }
  }

  /** Without a token, or with an empty one, the request carries no header (IMDSv1). */
  lemma {:induction false} MissingTokenFallsBackToV1()
    ensures MetadataHeaders(None) == map[] && MetadataHeaders(Some("")) == map[]
  {
  }

  /** Leading '/' characters of the path make no difference to the URL. */
  lemma {:induction false} MetadataUrlIgnoresLeadingSlashes(slashes: string, path: string)
    requires forall k :: 0 <= k < |slashes| ==> slashes[k] == '/'
    ensures MetadataUrl(slashes + path) == MetadataUrl(path)
  {
    PyText.LStripIgnoresPrefix(slashes, path, IsSlash);
  }

  /** "x", "/x" and "//x" name the same metadata URL. */
  lemma {:induction false} MetadataUrlExample(x: string)
    ensures MetadataUrl("/" + x) == MetadataUrl("//" + x) == MetadataUrl(x)
  {
    MetadataUrlIgnoresLeadingSlashes("/", x);
    MetadataUrlIgnoresLeadingSlashes("//", x);
  }

  /** Stripping the leading '/' characters is idempotent. */
  lemma {:induction false} MetadataUrlStripIdempotent(path: string)
    ensures MetadataUrl(PyText.LStrip(path, IsSlash)) == MetadataUrl(path)
  {
    PyText.LStripIdempotent(path, IsSlash);
  }

  /**
   * The GET request `get_instance_metadata` sends for `path`: the URL with the path's
   * leading '/' stripped, and the token header when there is a token.
   */
  function MetadataRequest(path: string, token: Option<string>): Request
  {
    Request(MetadataUrl(path), MetadataHeaders(token))
  }

  /**
   * `get_instance_metadata`: the body of the GET response, or the error that
   * `requests.get` or `raise_for_status` raises.
   */
  function InstanceMetadata(env: Env, path: string, token: Option<string>): (r: Result<string, ImdsError>)
    ensures var resp := env.get(MetadataRequest(path, token));
      && (r.Success? <==> resp.Response? && IsOk(resp.status))
      && (r.Success? ==> r.value == resp.text)
      && (resp.TransportError? ==> r == Failure(Unreachable))
      && (resp.Response? && !IsOk(resp.status) ==> r == Failure(HttpError(resp.status)))
  {
    match env.get(MetadataRequest(path, token))
    case TransportError => Failure(Unreachable)
    case Response(status, text) => if IsOk(status) then Success(text) else Failure(HttpError(status))
  }

  /** A role name as `get_role_names` returns it: non-empty, no surrounding whitespace. */
  predicate IsRoleName(name: string)
  {
    name != [] && !PyText.IsSpace(name[0]) && !PyText.IsSpace(name[|name| - 1])
  }

  /** What one line of the listing contributes: its stripped text, unless that is empty. */
  function NameOf(line: string): (names: seq<string>)
    ensures |names| == if PyText.IsBlank(line) then 0 else 1
    ensures names != [] ==> names[0] == PyText.Strip(line)
  {
    var name := PyText.Strip(line);
    if name != [] then [name] else []
  }

  /** The comprehension of `get_role_names`: every non-blank line, stripped, in order. */
  function NonBlankStripped(lines: seq<string>): (names: seq<string>)
    ensures |names| <= |lines|
  {
    if lines == [] then [] else NameOf(lines[0]) + NonBlankStripped(lines[1..])
  }

  /**
   * Regrouping a concatenation of name lists, stated apart so that it is proved without
   * the unfoldings of `NonBlankStripped` in view.
   */
  lemma {:induction false} AppendAssociative(x: seq<string>, y: seq<string>, z: seq<string>)
    ensures x + (y + z) == (x + y) + z
  {
  }

  /** Extracting names commutes with splitting the lines into two runs. */
  lemma {:induction false} NonBlankStrippedAppend(a: seq<string>, b: seq<string>)
    ensures NonBlankStripped(a + b) == NonBlankStripped(a) + NonBlankStripped(b)
    decreases |a|
  {
    if a == [] {
      assert a + b == b;
    } else {
      assert (a + b)[0] == a[0];
      assert (a + b)[1..] == a[1..] + b;
      NonBlankStrippedAppend(a[1..], b);
      var head, x, y := NameOf(a[0]), NonBlankStripped(a[1..]), NonBlankStripped(b);
      assert NonBlankStripped(a + b) == head + (x + y);
      assert NonBlankStripped(a) == head + x;
      AppendAssociative(head, x, y);
    }
  }

  /** The positions of the lines that are not blank, in increasing order. */
  function NonBlankIndices(lines: seq<string>): (idx: seq<nat>)
    ensures forall k :: 0 <= k < |idx| ==> idx[k] < |lines| && !PyText.IsBlank(lines[idx[k]])
  {
    if lines == [] then []
    else
      var n := |lines| - 1;
      var front := NonBlankIndices(lines[..n]);
      assert forall k :: 0 <= k < |front| ==> lines[..n][front[k]] == lines[front[k]];
      front + (if PyText.IsBlank(lines[n]) then [] else [n])
  }

  /** The positions of the non-blank lines come in increasing order. */
  lemma {:induction false} NonBlankIndicesIncreasing(lines: seq<string>)
    ensures forall k, m :: 0 <= k < m < |NonBlankIndices(lines)| ==>
      NonBlankIndices(lines)[k] < NonBlankIndices(lines)[m]
    decreases |lines|
  {
    if lines != [] {
      var n := |lines| - 1;
      var front := NonBlankIndices(lines[..n]);
      var idx := front + (if PyText.IsBlank(lines[n]) then [] else [n]);
      NonBlankIndicesIncreasing(lines[..n]);
      assert NonBlankIndices(lines) == idx;
      forall k, m | 0 <= k < m < |idx| ensures idx[k] < idx[m] {
        assert idx[k] == front[k] && front[k] < |lines[..n]|;
        if m < |front| {
          assert idx[m] == front[m];
        } else {
          assert idx[m] == n;
        }
      }
    }
  }

  /** Every non-blank line's position is among `NonBlankIndices`. */
  lemma {:induction false} NonBlankIndicesComplete(lines: seq<string>, j: nat)
    requires j < |lines| && !PyText.IsBlank(lines[j])
    ensures j in NonBlankIndices(lines)
    decreases |lines|
  {
    var n := |lines| - 1;
    if j < n {
      assert lines[..n][j] == lines[j];
      NonBlankIndicesComplete(lines[..n], j);
    }
  }

  /**
   * The names extracted from `lines` are, in order, the non-blank lines stripped:
   * the k-th name is line `NonBlankIndices(lines)[k]` stripped.
   */
  lemma {:induction false} NonBlankStrippedByIndex(lines: seq<string>)
    ensures var names := NonBlankStripped(lines);
      var idx := NonBlankIndices(lines);
      && |names| == |idx|
      && forall k :: 0 <= k < |names| ==> names[k] == PyText.Strip(lines[idx[k]])
    decreases |lines|
  {
    if lines != [] {
      var n := |lines| - 1;
      var front := lines[..n];
      NonBlankStrippedByIndex(front);
      NonBlankStrippedSnoc(lines);
      var fnames, fidx := NonBlankStripped(front), NonBlankIndices(front);
      var last := NameOf(lines[n]);
      var names := fnames + last;
      var idx := fidx + (if PyText.IsBlank(lines[n]) then [] else [n]);
      assert NonBlankIndices(lines) == idx;
      assert |last| == |idx| - |fidx|;
      forall k | 0 <= k < |names| ensures names[k] == PyText.Strip(lines[idx[k]]) {
        if k < |fnames| {
          assert names[k] == fnames[k] && idx[k] == fidx[k];
          assert front[fidx[k]] == lines[fidx[k]];
        } else {
          assert names[k] == last[0] && idx[k] == n;
        }
      }
    }
  }

  /** Extracting names from all lines: the names of all but the last, then the last line's. */
  lemma {:induction false} NonBlankStrippedSnoc(lines: seq<string>)
    requires lines != []
    ensures NonBlankStripped(lines) == NonBlankStripped(lines[..|lines| - 1]) + NameOf(lines[|lines| - 1])
  {
    var n := |lines| - 1;
    assert lines == lines[..n] + [lines[n]];
    NonBlankStrippedAppend(lines[..n], [lines[n]]);
    assert NonBlankStripped([lines[n]]) == NameOf(lines[n]) + NonBlankStripped([]);
  }

  /** The set of positions of the non-blank lines. */
  function NonBlankPositions(lines: seq<string>): set<nat>
  {
    set j: nat | j < |lines| && !PyText.IsBlank(lines[j])
  }

  lemma {:induction false} NonBlankPositionsSnoc(lines: seq<string>)
    requires lines != []
    ensures var n := |lines| - 1;
      NonBlankPositions(lines)
        == NonBlankPositions(lines[..n]) + (if PyText.IsBlank(lines[n]) then {} else {n})
  {
    var n := |lines| - 1;
    var front := lines[..n];
    var extra: set<nat> := if PyText.IsBlank(lines[n]) then {} else {n};
    forall j: nat ensures j in NonBlankPositions(lines) <==> j in NonBlankPositions(front) + extra {
      if j < n {
        assert front[j] == lines[j];
      }
    }
  }

  /** As many names are extracted as there are non-blank lines. */
  lemma {:induction false} NonBlankStrippedCount(lines: seq<string>)
    ensures |NonBlankStripped(lines)| == |NonBlankPositions(lines)|
    decreases |lines|
  {
    if lines != [] {
      var n := |lines| - 1;
      var front := lines[..n];
      assert lines == front + [lines[n]];
      NonBlankStrippedAppend(front, [lines[n]]);
      assert NonBlankStripped([lines[n]]) == NameOf(lines[n]) + NonBlankStripped([]);
      NonBlankStrippedCount(front);
      NonBlankPositionsSnoc(lines);
      assert n !in NonBlankPositions(front);
    }
  }

  /** The role names in the body of the role listing. */
  function RoleNamesOf(raw: string): seq<string>
  {
    NonBlankStripped(PyText.SplitLines(raw))
  }

  /** `get_role_names`: fetch the role listing and extract the role names. */
  function RoleNames(env: Env, token: Option<string>): (r: Result<seq<string>, ImdsError>)
    ensures r.Success? <==> InstanceMetadata(env, RoleListPath, token).Success?
    ensures r.Failure? ==> r.error == InstanceMetadata(env, RoleListPath, token).error
  {
    match InstanceMetadata(env, RoleListPath, token)
    case Failure(e) => Failure(e)
    case Success(raw) => Success(RoleNamesOf(raw))
  }

  /**
   * What `get_role_names` returns: non-empty names without surrounding whitespace, one
   * per non-blank line of the listing, each the line stripped, in the listing's order.
   */
  lemma {:induction false} RoleNamesAreNonBlankLines(env: Env, token: Option<string>)
    ensures var r := RoleNames(env, token);
      r.Success? ==>
        var lines := PyText.SplitLines(InstanceMetadata(env, RoleListPath, token).value);
        var idx := NonBlankIndices(lines);
        && (forall k :: 0 <= k < |r.value| ==> IsRoleName(r.value[k]))
        && |r.value| == |idx| == |NonBlankPositions(lines)|
        && (forall k :: 0 <= k < |r.value| ==> r.value[k] == PyText.Strip(lines[idx[k]]))
  {
    var r := RoleNames(env, token);
    if r.Success? {
      var lines := PyText.SplitLines(InstanceMetadata(env, RoleListPath, token).value);
      NonBlankStrippedByIndex(lines);
      NonBlankStrippedCount(lines);
      var idx := NonBlankIndices(lines);
      forall k | 0 <= k < |r.value| ensures IsRoleName(r.value[k]) {
        PyText.StripEnds(lines[idx[k]]);
      }
    }
  }

  /** `get_role_credentials`: fetch the role's credential document and decode it. */
  function RoleCredentials(env: Env, role: string, token: Option<string>): (r: Result<CredRecord, ImdsError>)
    ensures var body := InstanceMetadata(env, RoleListPath + role, token);
      && (body.Failure? ==> r == Failure(body.error))
      && (body.Success? && env.parseCredentials(body.value).None? ==> r == Failure(MalformedPayload))
      && (r.Success? <==> body.Success? && env.parseCredentials(body.value).Some?)
      && (r.Success? ==> r.value == env.parseCredentials(body.value).value)
  {
    match InstanceMetadata(env, RoleListPath + role, token)
    case Failure(e) => Failure(e)
    case Success(body) =>
      match env.parseCredentials(body)
      case None => Failure(MalformedPayload)
      case Some(rec) => Success(rec)
  }

  /**
   * The test the resolver applies to each credential set: Python's `==` holds only of a
   * string equal to the requested key, and of the string "Success".
   */
  predicate Matches(rec: CredRecord, accessKeyId: string)
  {
    rec.accessKeyId == Some(JString(accessKeyId)) && rec.code == Some(JString(SuccessCode))
  }

  /**
   * The session built from a matching credential set and the caller's region. Indexing
   * the absent secret raises `KeyError`; `get` on an absent token yields `None`.
   */
  function SessionOf(rec: CredRecord, region: Option<string>): (r: Result<Session, ImdsError>)
    requires rec.accessKeyId.Some? && rec.accessKeyId.value.JString?
    ensures r.Failure? <==> rec.secretAccessKey.None?
    ensures r.Failure? ==> r.error == MissingSecretAccessKey
    ensures r.Success? ==>
      && Some(JString(r.value.accessKeyId)) == rec.accessKeyId
      && Some(r.value.secretAccessKey) == rec.secretAccessKey
      && (rec.token.Some? ==> r.value.sessionToken == rec.token.value)
      && (rec.token.None? ==> r.value.sessionToken == JNull)
      && r.value.region == region
  {
    match rec.secretAccessKey
    case None => Failure(MissingSecretAccessKey)
    case Some(secret) =>
      var token := if rec.token.Some? then rec.token.value else JNull;
      Success(Session(rec.accessKeyId.value.s, secret, token, region))
  }

  /** What the scan does with one role's fetched credentials: go on, or stop with a result. */
  datatype Step = Next | Stop(result: Result<Session, ImdsError>)

  /**
   * The body of the resolver's loop for one role: a failed fetch or decode stops the
   * scan with its error; a matching set stops it with its session; anything else
   * (another key, a status other than "Success", no key at all) moves on.
   */
  function ScanStep(creds: Result<CredRecord, ImdsError>, accessKeyId: string, region: Option<string>): (s: Step)
    ensures creds.Failure? ==> s == Stop(Failure(creds.error))
    ensures creds.Success? ==> (s.Next? <==> !Matches(creds.value, accessKeyId))
    ensures creds.Success? && Matches(creds.value, accessKeyId) ==> s == Stop(SessionOf(creds.value, region))
    ensures s.Stop? && s.result.Success? ==>
      creds.Success? && Matches(creds.value, accessKeyId) && s.result == SessionOf(creds.value, region)
  {
    match creds
    case Failure(e) => Stop(Failure(e))
    case Success(rec) => if Matches(rec, accessKeyId) then Stop(SessionOf(rec, region)) else Next
  }

  /** The step the scan takes at `role`. */
  function StepAt(env: Env, role: string, token: Option<string>, accessKeyId: string, region: Option<string>): Step
  {
    ScanStep(RoleCredentials(env, role, token), accessKeyId, region)
  }

  /**
   * The scan goes on past a role exactly when that role's credentials were fetched and
   * decoded but do not match: a wrong key, a status other than "Success" or no key.
   */
  lemma {:induction false} NextIffFetchedWithoutMatch(env: Env, role: string, token: Option<string>,
                                                      accessKeyId: string, region: Option<string>)
    ensures var creds := RoleCredentials(env, role, token);
      StepAt(env, role, token, accessKeyId, region) == Next <==>
        creds.Success?
        && !(creds.value.accessKeyId == Some(JString(accessKeyId)) && creds.value.code == Some(JString("Success")))
  {
  }

  /**
   * A scan that ends with a session ended at a role whose credentials match; the
   * session carries that role's key, secret and token and the caller's region.
   */
  lemma {:induction false} StopWithSessionMeansMatch(env: Env, role: string, token: Option<string>,
                                                     accessKeyId: string, region: Option<string>, s: Session)
    requires StepAt(env, role, token, accessKeyId, region) == Stop(Success(s))
    ensures var creds := RoleCredentials(env, role, token);
      && creds.Success? && Matches(creds.value, accessKeyId)
      && s.accessKeyId == accessKeyId && Some(s.secretAccessKey) == creds.value.secretAccessKey
      && (creds.value.token.Some? ==> s.sessionToken == creds.value.token.value)
      && s.region == region
  {
  }

  /**
   * How a scan of `roles` that made `fetches` credential fetches may end: every role
   * before the last one fetched let the scan go on, and the result is what the last one
   * fetched stopped it with, or, when every role let it go on, an error naming the
   * requested key.
   */
  predicate ScanOutcome(env: Env, roles: seq<string>, token: Option<string>, accessKeyId: string,
                        region: Option<string>, r: Result<Session, ImdsError>, fetches: nat)
  {
    && fetches <= |roles|
    && (forall j :: 0 <= j < fetches - 1 ==> StepAt(env, roles[j], token, accessKeyId, region) == Next)
    && (|| (&& fetches == |roles|
            && (fetches > 0 ==> StepAt(env, roles[fetches - 1], token, accessKeyId, region) == Next)
            && r == Failure(NoMatchingCredentials(accessKeyId)))
        || (fetches > 0 && StepAt(env, roles[fetches - 1], token, accessKeyId, region) == Stop(r)))
  }

  /**
   * The scan stops at the first role whose step is not `Next`: exactly that many roles
   * were fetched, and the result is what that role's step stops with.
   */
  lemma {:induction false} ScanStopsAtFirstStop(env: Env, roles: seq<string>, token: Option<string>,
                                                accessKeyId: string, region: Option<string>,
                                                r: Result<Session, ImdsError>, fetches: nat, j: nat)
    requires ScanOutcome(env, roles, token, accessKeyId, region, r, fetches)
    requires j < |roles| && StepAt(env, roles[j], token, accessKeyId, region).Stop?
    requires forall i :: 0 <= i < j ==> StepAt(env, roles[i], token, accessKeyId, region) == Next
    ensures fetches == j + 1 && StepAt(env, roles[j], token, accessKeyId, region) == Stop(r)
  {
  }

  /**
   * The first matching role wins: if every role before role `j` let the scan go on and
   * role `j`'s credentials match, the scan made `j + 1` fetches and returns the session
   * built from role `j`'s credentials.
   */
  lemma {:induction false} FirstMatchWins(env: Env, roles: seq<string>, token: Option<string>,
                                          accessKeyId: string, region: Option<string>,
                                          r: Result<Session, ImdsError>, fetches: nat, j: nat, rec: CredRecord)
    requires ScanOutcome(env, roles, token, accessKeyId, region, r, fetches)
    requires j < |roles| && RoleCredentials(env, roles[j], token) == Success(rec) && Matches(rec, accessKeyId)
    requires forall i :: 0 <= i < j ==> StepAt(env, roles[i], token, accessKeyId, region) == Next
    ensures fetches == j + 1 && r == SessionOf(rec, region)
  {
    assert StepAt(env, roles[j], token, accessKeyId, region) == Stop(SessionOf(rec, region));
    ScanStopsAtFirstStop(env, roles, token, accessKeyId, region, r, fetches, j);
  }

  /** When every role lets the scan go on, all are fetched and the result names the key. */
  lemma {:induction false} NoMatchFetchesAll(env: Env, roles: seq<string>, token: Option<string>,
                                             accessKeyId: string, region: Option<string>,
                                             r: Result<Session, ImdsError>, fetches: nat)
    requires ScanOutcome(env, roles, token, accessKeyId, region, r, fetches)
    requires forall i :: 0 <= i < |roles| ==> StepAt(env, roles[i], token, accessKeyId, region) == Next
    ensures fetches == |roles| && r == Failure(NoMatchingCredentials(accessKeyId))
  {
    if fetches > 0 {
      assert StepAt(env, roles[fetches - 1], token, accessKeyId, region) == Next;
    }
  }

  /**
   * The loop of `boto3_session_from_access_key_id` over the listed roles; `fetches`
   * counts the credential fetches made.
   */
  method ScanRoles(env: Env, roles: seq<string>, token: Option<string>, accessKeyId: string, region: Option<string>)
    returns (r: Result<Session, ImdsError>, fetches: nat)
    ensures ScanOutcome(env, roles, token, accessKeyId, region, r, fetches)
  {
    fetches := 0;
    while fetches < |roles|
      invariant fetches <= |roles|
      invariant forall j :: 0 <= j < fetches ==> StepAt(env, roles[j], token, accessKeyId, region) == Next
    {
      var role := roles[fetches];
      var creds := RoleCredentials(env, role, token);
      var step := ScanStep(creds, accessKeyId, region);
      assert step == StepAt(env, role, token, accessKeyId, region);
      fetches := fetches + 1;
      if step.Stop? {
        return step.result, fetches;
      }
    }
    r := Failure(NoMatchingCredentials(accessKeyId));
  }

  /**
   * `boto3_session_from_access_key_id`: fetch a token (best effort), list the roles
   * with it and scan them. A failing listing ends the call before any credential fetch.
   */
  method SessionFromAccessKeyId(env: Env, accessKeyId: string, region: Option<string>)
    returns (r: Result<Session, ImdsError>, fetches: nat)
    ensures var listing := RoleNames(env, ImdsToken(env.put));
      listing.Failure? ==> r == Failure(listing.error) && fetches == 0
    ensures var token := ImdsToken(env.put);
      var listing := RoleNames(env, token);
      listing.Success? ==> ScanOutcome(env, listing.value, token, accessKeyId, region, r, fetches)
  {
    var token := ImdsToken(env.put);
    var listing := RoleNames(env, token);
    if listing.Failure? {
      return Failure(listing.error), 0;
    }
    r, fetches := ScanRoles(env, listing.value, token, accessKeyId, region);
  }
}
