/**
 * The decision logic of the application-submission script: reading its
 * configuration from the environment, assembling and signing the payload,
 * and classifying the endpoint's answer. The process environment is a map,
 * the clock reading is an input string, and JSON serialisation, HMAC-SHA256
 * and the HTTP POST are functions supplied in an `Effects` value.
 */
module Submission {
  import opened Wrappers
  import opened PyStr
  import opened SortedKeys

  /** The process environment: variable name to value. */
  type Env = map<string, string>

  const ACTION_RUN_LINK := "ACTION_RUN_LINK"
  const GITHUB_SERVER_URL := "GITHUB_SERVER_URL"
  const GITHUB_REPOSITORY := "GITHUB_REPOSITORY"
  const GITHUB_RUN_ID := "GITHUB_RUN_ID"
  const EMAIL := "EMAIL"
  const NAME := "NAME"
  const REPOSITORY_LINK := "REPOSITORY_LINK"
  const RESUME_LINK := "RESUME_LINK"
  const SIGNING_SECRET := "SIGNING_SECRET"

  const DefaultSecret := "hello-there-from-b12"
  const Endpoint := "https://b12.io/apply/submission"
  const TimeoutSeconds := 30
  const StatusOK := 200
  const SignaturePrefix := "sha256="

  /** `os.getenv(name, default)`. */
  function Getenv(env: Env, name: string, default: string): (v: string)
    ensures name in env ==> v == env[name]
    ensures name !in env ==> v == default
  {
    if name in env then env[name] else default
  }

  // ---------------------------------------------------------------------
  // Configuration

  /** The `ValueError`s raised while reading the configuration. */
  datatype ConfigError =
    | MissingVariable(name: string)  // a required variable is absent or blank
    | MissingRunContext              // no run link and incomplete CI context

  /** `word` occurs in `s` starting at index `i`. */
  predicate OccursAt(s: string, word: string, i: int) {
    0 <= i <= |s| - |word| && s[i..i + |word|] == word
  }

  /** `s` contains `word` as a contiguous piece. */
  predicate Mentions(s: string, word: string) {
    exists i :: 0 <= i <= |s| && OccursAt(s, word, i)
  }

  /** The text of the raised `ValueError`. */
  function ErrorMessage(e: ConfigError): (msg: string)
    ensures |msg| > 8 && msg[..8] == "Missing "
  {
    match e
    case MissingVariable(name) => "Missing required environment variable: " + name
    case MissingRunContext =>
      "Missing " + ACTION_RUN_LINK + " and GitHub context vars (" + GITHUB_SERVER_URL + ", "
      + GITHUB_REPOSITORY + ", " + GITHUB_RUN_ID + ")."
  }

  /** The message names the missing variable, or every alternative source
      of the run link. */
  lemma ErrorMessageNamesVariables(e: ConfigError)
    ensures e.MissingVariable? ==> Mentions(ErrorMessage(e), e.name)
    ensures e.MissingRunContext? ==>
      && Mentions(ErrorMessage(e), ACTION_RUN_LINK) && Mentions(ErrorMessage(e), GITHUB_SERVER_URL)
      && Mentions(ErrorMessage(e), GITHUB_REPOSITORY) && Mentions(ErrorMessage(e), GITHUB_RUN_ID)
  {
    var msg := ErrorMessage(e);
    match e
    case MissingVariable(name) =>
      assert OccursAt(msg, name, |"Missing required environment variable: "|);
    case MissingRunContext =>
      var a := "Missing " + ACTION_RUN_LINK;
      var b := a + " and GitHub context vars (" + GITHUB_SERVER_URL;
      var c := b + ", " + GITHUB_REPOSITORY;
      var d := c + ", " + GITHUB_RUN_ID;
      assert msg == d + ").";
      assert OccursAt(msg, ACTION_RUN_LINK, |"Missing "|);
      assert OccursAt(msg, GITHUB_SERVER_URL, |b| - |GITHUB_SERVER_URL|);
      assert OccursAt(msg, GITHUB_REPOSITORY, |c| - |GITHUB_REPOSITORY|);
      assert OccursAt(msg, GITHUB_RUN_ID, |d| - |GITHUB_RUN_ID|);
  }

  /** Distinct errors have distinct messages, so the text identifies the
      error and, for a missing variable, which one. */
  lemma ErrorMessageInjective(e1: ConfigError, e2: ConfigError)
    requires ErrorMessage(e1) == ErrorMessage(e2)
    ensures e1 == e2
  {
    var prefix := "Missing required environment variable: ";
    var m1, m2 := ErrorMessage(e1), ErrorMessage(e2);
    assert m1[8] == if e1.MissingVariable? then 'r' else 'A';
    assert m2[8] == if e2.MissingVariable? then 'r' else 'A';
    if e1.MissingVariable? && e2.MissingVariable? {
      assert m1[|prefix|..] == e1.name;
      assert m2[|prefix|..] == e2.name;
    }
  }

  /** A variable is set to something other than whitespace. */
  predicate Present(env: Env, name: string) {
    name in env && !Blank(env[name])
  }

  /** `required_env`: the variable's value with surrounding whitespace
      stripped; fails when the variable is absent or blank. */
  function RequiredEnv(env: Env, name: string): (r: Result<string, ConfigError>)
    ensures r.Success? <==> Present(env, name)
    ensures r.Success? ==> r.value != "" && Trimmed(r.value) && r.value == Strip(env[name])
    ensures r.Failure? ==> r.error == MissingVariable(name)
  {
    var value := Strip(Getenv(env, name, ""));
    if value == "" then Failure(MissingVariable(name)) else Success(value)
  }

  /** Whether a run link can be resolved: an explicit one is given, or all
      three CI context variables are. */
  predicate RunLinkAvailable(env: Env) {
    || Present(env, ACTION_RUN_LINK)
    || (Present(env, GITHUB_SERVER_URL) && Present(env, GITHUB_REPOSITORY) && Present(env, GITHUB_RUN_ID))
  }

  /** The run link put together from the CI context. */
  function RunUrl(server: string, repository: string, runId: string): (url: string)
    ensures var n, m := |server|, |repository|;
      && |url| == n + 1 + m + |"/actions/runs/"| + |runId|
      && url[..n] == server && url[n] == '/'
      && url[n + 1..n + 1 + m] == repository
      && url[n + 1 + m..] == "/actions/runs/" + runId
  {
    server + "/" + repository + "/actions/runs/" + runId
  }

  /** `build_action_run_link`: an explicit `ACTION_RUN_LINK` wins; otherwise
      the link is synthesised from the trimmed CI context; otherwise it fails. */
  function BuildActionRunLink(env: Env): (r: Result<string, ConfigError>)
    ensures r.Success? <==> RunLinkAvailable(env)
    ensures r.Success? ==> r.value != ""
    ensures Present(env, ACTION_RUN_LINK) ==> r == Success(Strip(env[ACTION_RUN_LINK]))
    ensures !Present(env, ACTION_RUN_LINK) && r.Success? ==>
      r.value == RunUrl(Strip(env[GITHUB_SERVER_URL]), Strip(env[GITHUB_REPOSITORY]), Strip(env[GITHUB_RUN_ID]))
    ensures r.Failure? ==> r.error == MissingRunContext
  {
    var explicit := Strip(Getenv(env, ACTION_RUN_LINK, ""));
    if explicit != "" then Success(explicit)
    else
      var serverUrl := Strip(Getenv(env, GITHUB_SERVER_URL, ""));
      var repository := Strip(Getenv(env, GITHUB_REPOSITORY, ""));
      var runId := Strip(Getenv(env, GITHUB_RUN_ID, ""));
      if serverUrl != "" && repository != "" && runId != "" then
        Success(RunUrl(serverUrl, repository, runId))
      else
        Failure(MissingRunContext)
  }

  /** A non-blank explicit link is returned whatever the CI variables hold. */
  lemma ExplicitLinkWins(env: Env, server: Option<string>, repository: Option<string>, runId: Option<string>)
    requires Present(env, ACTION_RUN_LINK)
    ensures BuildActionRunLink(Override(Override(Override(env, GITHUB_SERVER_URL, server), GITHUB_REPOSITORY, repository), GITHUB_RUN_ID, runId))
         == Success(Strip(env[ACTION_RUN_LINK]))
  {
  }

  /** `env` with `name` set to the given value, or removed for `None`. */
  function Override(env: Env, name: string, value: Option<string>): (env': Env)
    ensures forall n :: n != name ==> (n in env' <==> n in env)
    ensures forall n :: n != name && n in env ==> env'[n] == env[n]
    ensures value.Some? ==> name in env' && env'[name] == value.value
    ensures value.None? ==> name !in env'
  {
    match value
    case Some(v) => env[name := v]
    case None => env - {name}
  }

  /** The synthesised link carries the CI context verbatim up to trimming:
      it starts with the server URL and a slash, and ends with the run id
      after `/actions/runs/`. */
  lemma SynthesisedLinkShape(env: Env)
    requires !Present(env, ACTION_RUN_LINK)
    requires Present(env, GITHUB_SERVER_URL) && Present(env, GITHUB_REPOSITORY) && Present(env, GITHUB_RUN_ID)
    ensures var link := BuildActionRunLink(env).value;
      var server, runId := Strip(env[GITHUB_SERVER_URL]), Strip(env[GITHUB_RUN_ID]);
      var tail := "/actions/runs/" + runId;
      && |link| > |server| + |tail|
      && link[..|server| + 1] == server + "/"
      && link[|link| - |tail|..] == tail
  {
  }

  // ---------------------------------------------------------------------
  // Field resolution

  /** The six submitted fields, each a resolved string. */
  datatype Fields = Fields(
    actionRunLink: string,
    email: string,
    name: string,
    repositoryLink: string,
    resumeLink: string,
    timestamp: string)

  /** A value `main` resolves before building the payload. */
  datatype Requirement = RunLink | Variable(name: string)

  /** The order in which `main` resolves its inputs. */
  const ResolutionOrder: seq<Requirement> :=
    [RunLink, Variable(EMAIL), Variable(NAME), Variable(REPOSITORY_LINK), Variable(RESUME_LINK)]

  predicate Satisfied(env: Env, q: Requirement) {
    match q
    case RunLink => RunLinkAvailable(env)
    case Variable(n) => Present(env, n)
  }

  /** The error raised when `q` cannot be resolved. */
  function ErrorFor(q: Requirement): ConfigError {
    match q
    case RunLink => MissingRunContext
    case Variable(n) => MissingVariable(n)
  }

  /** The first requirement in `qs` that `env` does not satisfy. */
  function FirstUnsatisfied(env: Env, qs: seq<Requirement>): (r: Option<Requirement>)
    ensures r.None? <==> forall i :: 0 <= i < |qs| ==> Satisfied(env, qs[i])
  {
    if qs == [] then None
    else if !Satisfied(env, qs[0]) then Some(qs[0])
    else FirstUnsatisfied(env, qs[1..])
  }

  /** What `FirstUnsatisfied` finds is unsatisfied and comes after only
      satisfied requirements. */
  lemma {:induction false} FirstUnsatisfiedIsFirst(env: Env, qs: seq<Requirement>)
    requires FirstUnsatisfied(env, qs).Some?
    ensures exists i :: (0 <= i < |qs| && qs[i] == FirstUnsatisfied(env, qs).value
      && !Satisfied(env, qs[i]) && forall k :: 0 <= k < i ==> Satisfied(env, qs[k]))
  {
    if Satisfied(env, qs[0]) {
      FirstUnsatisfiedIsFirst(env, qs[1..]);
      var i :| (0 <= i < |qs[1..]| && qs[1..][i] == FirstUnsatisfied(env, qs[1..]).value
        && !Satisfied(env, qs[1..][i]) && forall k :: 0 <= k < i ==> Satisfied(env, qs[1..][k]));
      assert qs[i + 1] == qs[1..][i];
      forall k | 0 <= k < i + 1 ensures Satisfied(env, qs[k]) {
        if k > 0 { assert qs[k] == qs[1..][k - 1]; }
      }
    }
  }

  /** The first unresolvable input, spelled out for `ResolutionOrder`. */
  lemma FirstUnsatisfiedInOrder(env: Env)
    ensures FirstUnsatisfied(env, ResolutionOrder) ==
      if !RunLinkAvailable(env) then Some(RunLink)
      else if !Present(env, EMAIL) then Some(Variable(EMAIL))
      else if !Present(env, NAME) then Some(Variable(NAME))
      else if !Present(env, REPOSITORY_LINK) then Some(Variable(REPOSITORY_LINK))
      else if !Present(env, RESUME_LINK) then Some(Variable(RESUME_LINK))
      else None
  {
    var qs := ResolutionOrder;
    var t4 := [Variable(RESUME_LINK)];
    var t3 := [Variable(REPOSITORY_LINK)] + t4;
    var t2 := [Variable(NAME)] + t3;
    var t1 := [Variable(EMAIL)] + t2;
    assert qs[1..] == t1 && t1[1..] == t2 && t2[1..] == t3 && t3[1..] == t4 && t4[1..] == [];
    assert FirstUnsatisfied(env, t4) == if !Present(env, RESUME_LINK) then Some(Variable(RESUME_LINK)) else None;
    assert FirstUnsatisfied(env, t3) == if !Present(env, REPOSITORY_LINK) then Some(Variable(REPOSITORY_LINK)) else FirstUnsatisfied(env, t4);
    assert FirstUnsatisfied(env, t2) == if !Present(env, NAME) then Some(Variable(NAME)) else FirstUnsatisfied(env, t3);
    assert FirstUnsatisfied(env, t1) == if !Present(env, EMAIL) then Some(Variable(EMAIL)) else FirstUnsatisfied(env, t2);
  }

  /** The dictionary literal of `main` up to the timestamp: the five values
      are resolved in `ResolutionOrder`, and the first that fails is raised. */
  function ResolveFields(env: Env, timestamp: string): (r: Result<Fields, ConfigError>)
    ensures r.Failure? <==> FirstUnsatisfied(env, ResolutionOrder).Some?
    ensures r.Failure? ==> r.error == ErrorFor(FirstUnsatisfied(env, ResolutionOrder).value)
    ensures r.Success? ==>
      Present(env, EMAIL) && Present(env, NAME) && Present(env, REPOSITORY_LINK) && Present(env, RESUME_LINK)
    ensures r.Success? ==>
      && r.value.actionRunLink == BuildActionRunLink(env).value
      && r.value.email == Strip(env[EMAIL])
      && r.value.name == Strip(env[NAME])
      && r.value.repositoryLink == Strip(env[REPOSITORY_LINK])
      && r.value.resumeLink == Strip(env[RESUME_LINK])
      && r.value.timestamp == timestamp
    ensures r.Success? ==>
      && r.value.actionRunLink != "" && r.value.email != "" && r.value.name != ""
      && r.value.repositoryLink != "" && r.value.resumeLink != ""
  {
    FirstUnsatisfiedInOrder(env);
    var link :- BuildActionRunLink(env);
    var email :- RequiredEnv(env, EMAIL);
    var name :- RequiredEnv(env, NAME);
    var repositoryLink :- RequiredEnv(env, REPOSITORY_LINK);
    var resumeLink :- RequiredEnv(env, RESUME_LINK);
    Success(Fields(link, email, name, repositoryLink, resumeLink, timestamp))
  }

  // ---------------------------------------------------------------------
  // Payload

  /** The keys of every payload. */
  const PayloadKeys: set<string> :=
    {"action_run_link", "email", "name", "repository_link", "resume_link", "timestamp"}

  /** The payload keys in the order `json.dumps(..., sort_keys=True)` writes them. */
  const SortedPayloadKeys: seq<string> :=
    ["action_run_link", "email", "name", "repository_link", "resume_link", "timestamp"]

  /** The `payload` dictionary of `main`. */
  function Payload(f: Fields): (m: map<string, string>)
    ensures m.Keys == PayloadKeys
    ensures m["action_run_link"] == f.actionRunLink && m["email"] == f.email && m["name"] == f.name
    ensures m["repository_link"] == f.repositoryLink && m["resume_link"] == f.resumeLink
    ensures m["timestamp"] == f.timestamp
  {
    map[
      "action_run_link" := f.actionRunLink,
      "email" := f.email,
      "name" := f.name,
      "repository_link" := f.repositoryLink,
      "resume_link" := f.resumeLink,
      "timestamp" := f.timestamp]
  }

  /** Reading the fields back out of a payload, as the receiving side does. */
  function FromPayload(m: map<string, string>): (r: Option<Fields>)
    ensures r.Some? <==> PayloadKeys <= m.Keys
  {
    if "action_run_link" in m && "email" in m && "name" in m
       && "repository_link" in m && "resume_link" in m && "timestamp" in m
    then Some(Fields(m["action_run_link"], m["email"], m["name"], m["repository_link"], m["resume_link"], m["timestamp"]))
    else None
  }

  /** The payload carries every field under its own key, so nothing is lost
      or swapped. */
  lemma PayloadRoundTrip(f: Fields)
    ensures FromPayload(Payload(f)) == Some(f)
  {
  }

  /** The fixed key order of every payload. */
  lemma PayloadKeyOrder(f: Fields)
    ensures Sorted(Payload(f).Keys) == SortedPayloadKeys
  {
    PayloadKeysAscending();
    SortedIs(Payload(f).Keys, SortedPayloadKeys);
  }

  /** The listed key order is strictly ascending in Python's string order. */
  lemma PayloadKeysAscending()
    ensures StrictlySorted(SortedPayloadKeys)
  {
    var ks := SortedPayloadKeys;
    NeighboursAscending();
    forall i, j | 0 <= i < j < |ks| ensures Less(ks[i], ks[j]) {
      ChainLess(ks, i, j);
    }
  }

  /** Each key is smaller than the next: the first four differ in their first
      character, and `repository_link` and `resume_link` in their third. */
  lemma NeighboursAscending()
    ensures forall k :: 0 <= k < |SortedPayloadKeys| - 1 ==> Less(SortedPayloadKeys[k], SortedPayloadKeys[k + 1])
  {
    var ks := SortedPayloadKeys;
    assert DiffersFirstAt(ks[0], ks[1], 0);
    LessCharacterised(ks[0], ks[1]);
    assert DiffersFirstAt(ks[1], ks[2], 0);
    LessCharacterised(ks[1], ks[2]);
    assert DiffersFirstAt(ks[2], ks[3], 0);
    LessCharacterised(ks[2], ks[3]);
    assert DiffersFirstAt(ks[3], ks[4], 2);
    LessCharacterised(ks[3], ks[4]);
    assert DiffersFirstAt(ks[4], ks[5], 0);
    LessCharacterised(ks[4], ks[5]);
  }

  /** In a sequence whose neighbours are ascending, every earlier element is
      smaller than every later one. */
  lemma {:induction false} ChainLess(ks: seq<string>, i: nat, j: nat)
    requires forall k :: 0 <= k < |ks| - 1 ==> Less(ks[k], ks[k + 1])
    requires i < j < |ks|
    ensures Less(ks[i], ks[j])
  {
    if j > i + 1 {
      ChainLess(ks, i, j - 1);
      LessTransitive(ks[i], ks[j - 1], ks[j]);
    }
  }

  /** The entries of `m` for the keys `ks`, in that order. */
  function EntriesIn(m: map<string, string>, ks: seq<string>): (es: seq<(string, string)>)
    requires forall i :: 0 <= i < |ks| ==> ks[i] in m
    ensures |es| == |ks|
    ensures forall i :: 0 <= i < |es| ==> es[i].0 == ks[i] && es[i].1 == m[ks[i]]
  {
    seq(|ks|, i requires 0 <= i < |ks| => (ks[i], m[ks[i]]))
  }

  /** The payload's entries in serialisation order: what `json.dumps` writes,
      key by key, before any escaping. */
  ghost function CanonicalEntries(m: map<string, string>): (es: seq<(string, string)>)
    ensures |es| == |m|
    ensures forall i :: 0 <= i < |es| ==> es[i].0 in m && es[i].1 == m[es[i].0]
    ensures forall k :: k in m ==> exists i :: 0 <= i < |es| && es[i].0 == k
    ensures forall i, j :: 0 <= i < j < |es| ==> Less(es[i].0, es[j].0)
  {
    var ks := Sorted(m.Keys);
    EntriesInSorted(m, ks);
    EntriesIn(m, ks)
  }

  /** Listing a map's entries along a strictly ascending list of all its keys
      gives each item once, in ascending key order. */
  lemma EntriesInSorted(m: map<string, string>, ks: seq<string>)
    requires |ks| == |m.Keys|
    requires forall i :: 0 <= i < |ks| ==> ks[i] in m
    requires forall k :: k in m ==> k in ks
    requires StrictlySorted(ks)
    ensures var es := EntriesIn(m, ks);
      && |es| == |m|
      && (forall i :: 0 <= i < |es| ==> es[i].0 in m && es[i].1 == m[es[i].0])
      && (forall k :: k in m ==> exists i :: 0 <= i < |es| && es[i].0 == k)
      && (forall i, j :: 0 <= i < j < |es| ==> Less(es[i].0, es[j].0))
  {
    var es := EntriesIn(m, ks);
    forall k | k in m ensures exists i :: 0 <= i < |es| && es[i].0 == k {
      var i :| 0 <= i < |ks| && ks[i] == k;
      assert es[i].0 == k;
    }
    forall i, j | 0 <= i < j < |es| ensures Less(es[i].0, es[j].0) {
      assert es[i].0 == ks[i] && es[j].0 == ks[j];
    }
  }

  /** The canonical entries of a payload, spelled out in key order. */
  lemma PayloadEntries(f: Fields)
    ensures CanonicalEntries(Payload(f)) == [
      ("action_run_link", f.actionRunLink), ("email", f.email), ("name", f.name),
      ("repository_link", f.repositoryLink), ("resume_link", f.resumeLink), ("timestamp", f.timestamp)]
  {
    var m := Payload(f);
    PayloadKeyOrder(f);
    var ks := Sorted(m.Keys);
    assert ks == SortedPayloadKeys;
    assert CanonicalEntries(m) == EntriesIn(m, ks);
    PayloadEntriesInKeyOrder(f);
  }

  /** The payload's entries listed in the fixed key order. */
  lemma PayloadEntriesInKeyOrder(f: Fields)
    ensures EntriesIn(Payload(f), SortedPayloadKeys) == [
      ("action_run_link", f.actionRunLink), ("email", f.email), ("name", f.name),
      ("repository_link", f.repositoryLink), ("resume_link", f.resumeLink), ("timestamp", f.timestamp)]
  {
  }

  // ---------------------------------------------------------------------
  // Signing and sending

  /** The library and network calls `main` makes, as functions: `dumps` is
      `json.dumps` with compact separators applied to the entries already in
      key order, `hmacSha256Hex` is `hmac.new(key, message, sha256).hexdigest()`
      over the UTF-8 encodings, and `post` is the single `requests.post`. */
  datatype Effects = Effects(
    dumps: seq<(string, string)> -> string,
    hmacSha256Hex: (string, string) -> string,
    post: Request -> Response)

  /** The arguments `main` passes to `requests.post`: the URL, the `headers`
      argument, the `data` argument and the timeout. The HTTP library adds
      headers of its own on the wire; they are not part of this value. */
  datatype Request = Request(url: string, headers: map<string, string>, body: string, timeoutSeconds: nat)

  /** The parts of the HTTP response `main` looks at: the status code, the
      `receipt` member of the parsed JSON body if there is one, and the raw text. */
  datatype Response = Response(status: int, receipt: Option<string>, text: string)

  /** The signing key: `SIGNING_SECRET` exactly as set, even when empty or
      blank, and the built-in default only when it is not set at all. */
  function SigningSecret(env: Env): (secret: string)
    ensures SIGNING_SECRET in env ==> secret == env[SIGNING_SECRET]
    ensures SIGNING_SECRET !in env ==> secret == DefaultSecret
  {
    Getenv(env, SIGNING_SECRET, DefaultSecret)
  }

  /** Unlike the required fields, the secret is neither stripped nor
      rejected when blank: a set-but-blank secret is used as it is and the
      default is not substituted. */
  lemma BlankSecretIsKept(env: Env)
    requires SIGNING_SECRET in env && Blank(env[SIGNING_SECRET])
    ensures SigningSecret(env) == env[SIGNING_SECRET] != DefaultSecret
    ensures RequiredEnv(env, SIGNING_SECRET).Failure?
  {
    assert !IsSpace(DefaultSecret[0]);
  }

  /** The value of the `X-Signature-256` header. */
  function SignatureHeader(signature: string): (h: string)
    ensures SignatureOf(h) == Some(signature)
  {
    SignaturePrefix + signature
  }

  /** The hex signature carried by an `X-Signature-256` header value, as a
      verifier reads it. */
  function SignatureOf(h: string): Option<string> {
    if |h| >= |SignaturePrefix| && h[..|SignaturePrefix|] == SignaturePrefix
    then Some(h[|SignaturePrefix|..])
    else None
  }

  /** Recomputing the HMAC of the body with `secret` gives the signature the
      request carries. */
  predicate SignatureVerifies(req: Request, secret: string, hmacSha256Hex: (string, string) -> string) {
    "X-Signature-256" in req.headers
    && SignatureOf(req.headers["X-Signature-256"]) == Some(hmacSha256Hex(secret, req.body))
  }

  /** The POST of `canonicalJson` to the endpoint, signed with `secret`. */
  function SignedRequest(canonicalJson: string, secret: string, hmacSha256Hex: (string, string) -> string): (req: Request)
    ensures req.url == Endpoint && req.timeoutSeconds == TimeoutSeconds
    ensures req.body == canonicalJson
    ensures req.headers.Keys == {"Content-Type", "X-Signature-256"}
    ensures req.headers["Content-Type"] == "application/json"
    ensures SignatureVerifies(req, secret, hmacSha256Hex)
  {
    var signature := hmacSha256Hex(secret, canonicalJson);
    var headers := map["Content-Type" := "application/json", "X-Signature-256" := SignatureHeader(signature)];
    Request(Endpoint, headers, canonicalJson, TimeoutSeconds)
  }

  /** The request built from the resolved fields: the canonical JSON of the
      payload is both the body and what is signed. */
  ghost function BuildRequest(f: Fields, secret: string, eff: Effects): (req: Request)
    ensures req == SignedRequest(eff.dumps(CanonicalEntries(Payload(f))), secret, eff.hmacSha256Hex)
    ensures req.body == eff.dumps(CanonicalEntries(Payload(f)))
    ensures SignatureVerifies(req, secret, eff.hmacSha256Hex)
  {
    SignedRequest(eff.dumps(CanonicalEntries(Payload(f))), secret, eff.hmacSha256Hex)
  }

  // ---------------------------------------------------------------------
  // Outcome

  /** How a run of `main` ends. */
  datatype Outcome =
    | Misconfigured(error: ConfigError)                     // ValueError before any request
    | Accepted(request: Request, receipt: string)           // RECEIPT printed, normal exit
    | InvalidResponse(request: Request, body: string)       // ValueError after a 200
    | Rejected(request: Request, status: int, body: string) // status and body printed, SystemExit(1)

  /** The process exit status: an uncaught `ValueError` and `SystemExit(1)`
      both end the interpreter with status 1. */
  function ExitCode(o: Outcome): (status: nat)
    ensures status == 0 <==> o.Accepted?
    ensures status <= 1
  {
    if o.Accepted? then 0 else 1
  }

  /** The response check at the end of `main`. */
  function Classify(req: Request, resp: Response): (o: Outcome)
    ensures !o.Misconfigured? && o.request == req
    ensures o.Accepted? <==> resp.status == StatusOK && resp.receipt.Some? && resp.receipt.value != ""
    ensures o.Accepted? ==> o.receipt == resp.receipt.value
    ensures o.InvalidResponse? <==> resp.status == StatusOK && (resp.receipt.None? || resp.receipt.value == "")
    ensures o.InvalidResponse? ==> o.body == resp.text
    ensures o.Rejected? <==> resp.status != StatusOK
    ensures o.Rejected? ==> o.status == resp.status && o.body == resp.text
    ensures ExitCode(o) == 0 <==> o.Accepted?
  {
    if resp.status == StatusOK then
      if resp.receipt.Some? && resp.receipt.value != "" then Accepted(req, resp.receipt.value)
      else InvalidResponse(req, resp.text)
    else
      Rejected(req, resp.status, resp.text)
  }

  /** `main`: resolve the fields, sign the canonical payload, send it once
      and classify the answer. */
  ghost function Run(env: Env, timestamp: string, eff: Effects): (o: Outcome)
    ensures o.Misconfigured? <==> FirstUnsatisfied(env, ResolutionOrder).Some?
    ensures o.Misconfigured? ==> o.error == ErrorFor(FirstUnsatisfied(env, ResolutionOrder).value)
    ensures !o.Misconfigured? ==>
      && o.request.url == Endpoint
      && o.request.timeoutSeconds == TimeoutSeconds
      && o.request.headers.Keys == {"Content-Type", "X-Signature-256"}
      && o.request.headers["Content-Type"] == "application/json"
      && o.request.body == eff.dumps(CanonicalEntries(Payload(ResolveFields(env, timestamp).value)))
      && SignatureVerifies(o.request, SigningSecret(env), eff.hmacSha256Hex)
      && o == Classify(o.request, eff.post(o.request))
    ensures o.Accepted? ==> o.receipt != ""
    ensures ExitCode(o) == 0 <==> o.Accepted?
  {
    match ResolveFields(env, timestamp)
    case Failure(e) => Misconfigured(e)
    case Success(f) =>
      var req := BuildRequest(f, SigningSecret(env), eff);
      Classify(req, eff.post(req))
  }

  /** No request is built or sent when resolution fails: the outcome is the
      same whatever the library and network functions do. */
  lemma NothingSentWhenMisconfigured(env: Env, timestamp: string, eff1: Effects, eff2: Effects)
    requires FirstUnsatisfied(env, ResolutionOrder).Some?
    ensures Run(env, timestamp, eff1) == Run(env, timestamp, eff2)
  {
  }

  /** The request is fixed before it is sent: the network's answer has no
      bearing on what was signed and transmitted. */
  lemma RequestFixedBeforeSending(env: Env, timestamp: string, eff1: Effects, eff2: Effects)
    requires eff1.dumps == eff2.dumps && eff1.hmacSha256Hex == eff2.hmacSha256Hex
    requires FirstUnsatisfied(env, ResolutionOrder).None?
    ensures Run(env, timestamp, eff1).request == Run(env, timestamp, eff2).request
  {
  }

  // ---------------------------------------------------------------------
  // Worked examples

  /** A complete configuration with an explicit run link and no secret. */
  const ExampleEnv: Env := map[
    EMAIL := "a@b.com", NAME := "A", REPOSITORY_LINK := "https://x",
    RESUME_LINK := "https://y", ACTION_RUN_LINK := "https://ci/run/1"]

  /** A value with no surrounding whitespace is taken as it is. */
  lemma StripTrimmed(s: string)
    requires Trimmed(s)
    ensures Strip(s) == s
  {
  }

  /** The example configuration resolves to its values as written. */
  lemma ExampleResolves(timestamp: string)
    ensures ResolveFields(ExampleEnv, timestamp)
         == Success(Fields("https://ci/run/1", "a@b.com", "A", "https://x", "https://y", timestamp))
  {
    var env := ExampleEnv;
    assert env[EMAIL] == "a@b.com" && env[NAME] == "A" && env[REPOSITORY_LINK] == "https://x";
    assert env[RESUME_LINK] == "https://y" && env[ACTION_RUN_LINK] == "https://ci/run/1";
    StripTrimmed("a@b.com");
    StripTrimmed("A");
    StripTrimmed("https://x");
    StripTrimmed("https://y");
    StripTrimmed("https://ci/run/1");
  }

  /** With the example configuration the request goes out; its body is the
      serialisation of the six entries in key order, and it is signed with
      the default secret. */
  lemma ExampleSubmission(timestamp: string, eff: Effects)
    ensures var o := Run(ExampleEnv, timestamp, eff);
      && !o.Misconfigured?
      && o.request.body == eff.dumps([
           ("action_run_link", "https://ci/run/1"), ("email", "a@b.com"), ("name", "A"),
           ("repository_link", "https://x"), ("resume_link", "https://y"), ("timestamp", timestamp)])
      && SignatureVerifies(o.request, DefaultSecret, eff.hmacSha256Hex)
  {
    ExampleResolves(timestamp);
    var f := Fields("https://ci/run/1", "a@b.com", "A", "https://x", "https://y", timestamp);
    PayloadEntries(f);
    ExampleSecret();
  }

  /** The example configuration does not set a secret, so the default is used. */
  lemma ExampleSecret()
    ensures SigningSecret(ExampleEnv) == DefaultSecret
  {
  }

  /** Without an explicit link, a missing `GITHUB_RUN_ID` stops the run
      before any of the required variables is looked at. */
  lemma ExampleMissingRunId(timestamp: string, eff: Effects)
    ensures Run((ExampleEnv - {ACTION_RUN_LINK})[GITHUB_SERVER_URL := "https://github.com"][GITHUB_REPOSITORY := "o/r"], timestamp, eff)
         == Misconfigured(MissingRunContext)
  {
    var env := (ExampleEnv - {ACTION_RUN_LINK})[GITHUB_SERVER_URL := "https://github.com"][GITHUB_REPOSITORY := "o/r"];
    assert ACTION_RUN_LINK !in env && GITHUB_RUN_ID !in env;
    FirstUnsatisfiedInOrder(env);
  }

  /** The three kinds of answer: a receipt, a 200 without one, and an error status. */
  lemma ExampleResponses(req: Request)
    ensures Classify(req, Response(200, Some("abc123"), "{\"receipt\":\"abc123\"}")) == Accepted(req, "abc123")
    ensures Classify(req, Response(200, None, "{}")) == InvalidResponse(req, "{}")
    ensures Classify(req, Response(200, Some(""), "{\"receipt\":\"\"}")).InvalidResponse?
    ensures Classify(req, Response(500, None, "oops")) == Rejected(req, 500, "oops")
    ensures ExitCode(Rejected(req, 500, "oops")) == 1
  {
  }
}
